// Canonical Huffman codes (section 3.2.2 of RFC 1951), seen as consecutive
// intervals: a code word of length l stands for the 2^(15-l) fifteen-bit strings
// that begin with it, and the words are laid out in order of length, then symbol.

module Canonical {
  import opened Powers
  import opened Bits

  type bitlen = l: nat | l <= 15

  function Width(l: bitlen): (w: nat)
    ensures (w == 0) == (l == 0)
  {
    if l == 0 then 0 else Pow2(15 - l)
  }

  // Symbol s of length l comes before position (l2, s2) in canonical order.
  predicate Before(l: nat, s: nat, l2: nat, s2: nat) {
    0 < l && (l < l2 || (l == l2 && s < s2))
  }

  // The room taken by those of the first n symbols that come before (l, k).
  function Below(lens: seq<bitlen>, n: nat, l: nat, k: nat): nat
    requires n <= |lens|
  {
    if n == 0 then 0
    else Below(lens, n - 1, l, k) +
         (if Before(lens[n - 1], n - 1, l, k) then Width(lens[n - 1]) else 0)
  }

  // The number of symbols among the first n with length l.
  function Count(lens: seq<bitlen>, n: nat, l: nat): nat
    requires n <= |lens|
  {
    if n == 0 then 0 else Count(lens, n - 1, l) + (if lens[n - 1] == l then 1 else 0)
  }

  function Start(lens: seq<bitlen>, s: nat): nat
    requires s < |lens|
  {
    Below(lens, |lens|, lens[s], s)
  }

  // The Kraft sum, in units of 2^-15.
  function Kraft(lens: seq<bitlen>): nat {
    Below(lens, |lens|, 16, 0)
  }

  predicate Coded(lens: seq<bitlen>, s: nat) {
    s < |lens| && 0 < lens[s]
  }

  // The fifteen-bit strings (first bit most significant) that start with the code of s.
  predicate Covers(lens: seq<bitlen>, s: nat, x: nat)
    requires s < |lens|
  {
    Start(lens, s) <= x < Start(lens, s) + Width(lens[s])
  }

  // The same, counted in code words of length l.
  function Units(lens: seq<bitlen>, n: nat, l: nat, k: nat): nat
    requires n <= |lens|
  {
    if n == 0 then 0
    else Units(lens, n - 1, l, k) +
         (if Before(lens[n - 1], n - 1, l, k) then Pow2(l - lens[n - 1]) else 0)
  }

  // The code word of s as a number, most significant bit first.
  function Code(lens: seq<bitlen>, s: nat): nat
    requires s < |lens|
  {
    Units(lens, |lens|, lens[s], s)
  }

  // The code word as it is packed: bit-reversed.
  function Huff(lens: seq<bitlen>, s: nat): (h: nat)
    requires s < |lens|
    ensures h < Pow2(lens[s])
  {
    Rev(Code(lens, s), lens[s])
  }

  function CodeBits(lens: seq<bitlen>, s: nat): (bs: seq<bool>)
    requires s < |lens|
    ensures |bs| == lens[s]
  {
    BitsOf(Huff(lens, s), lens[s])
  }

  // ------------------------------------------------------------ layout

  lemma {:induction false} BelowStep(lens: seq<bitlen>, n: nat, l: nat, k: nat)
    requires n <= |lens| && 0 < l
    ensures Below(lens, n, l, k + 1) == Below(lens, n, l, k) + (if k < n && lens[k] == l then Width(lens[k]) else 0)
  {
    if n > 0 { BelowStep(lens, n - 1, l, k); }
  }

  lemma {:induction false} BelowLevel(lens: seq<bitlen>, n: nat, l: nat, k: nat)
    requires n <= |lens| && n <= k
    ensures Below(lens, n, l + 1, 0) == Below(lens, n, l, k)
  {
    if n > 0 { BelowLevel(lens, n - 1, l, k); }
  }

  // Moving to a later position adds every symbol passed over.
  lemma {:induction false} BelowMono(lens: seq<bitlen>, n: nat, l: nat, k: nat, l2: nat, k2: nat)
    requires n <= |lens| && (l < l2 || (l == l2 && k <= k2))
    ensures Below(lens, n, l, k) <= Below(lens, n, l2, k2)
  {
    if n > 0 { BelowMono(lens, n - 1, l, k, l2, k2); }
  }

  lemma {:induction false} BelowGap(lens: seq<bitlen>, n: nat, s: nat, l2: nat, k2: nat)
    requires n <= |lens| && s < n && Before(lens[s], s, l2, k2)
    ensures Below(lens, n, lens[s], s) + Width(lens[s]) <= Below(lens, n, l2, k2)
  {
    if n - 1 == s {
      BelowMono(lens, n - 1, lens[s], s, l2, k2);
    } else {
      BelowGap(lens, n - 1, s, l2, k2);
    }
  }

  lemma WidthUnits(m: bitlen, l: bitlen)
    requires 0 < m <= l
    ensures Width(m) == Pow2(l - m) * Pow2(15 - l)
  {
    Pow2Add(l - m, 15 - l);
  }

  // A position of length l, measured in code words of length l.
  lemma {:induction false} BelowUnits(lens: seq<bitlen>, n: nat, l: bitlen, k: nat)
    requires n <= |lens|
    ensures Below(lens, n, l, k) == Units(lens, n, l, k) * Pow2(15 - l)
  {
    if n > 0 {
      BelowUnits(lens, n - 1, l, k);
      var m := lens[n - 1];
      if Before(m, n - 1, l, k) {
        WidthUnits(m, l);
        MulAdd(Units(lens, n - 1, l, k), Pow2(l - m), Pow2(15 - l));
      }
    }
  }

  // Intervals of different symbols do not meet.
  lemma CoversUnique(lens: seq<bitlen>, s: nat, t: nat, x: nat)
    requires Coded(lens, s) && Coded(lens, t)
    requires Covers(lens, s, x) && Covers(lens, t, x)
    ensures s == t
  {
    if Before(lens[s], s, lens[t], t) {
      BelowGap(lens, |lens|, s, lens[t], t);
    } else if s != t {
      BelowGap(lens, |lens|, t, lens[s], s);
    }
  }

  lemma CoversBelowKraft(lens: seq<bitlen>, s: nat)
    requires Coded(lens, s)
    ensures Start(lens, s) + Width(lens[s]) <= Kraft(lens)
  {
    BelowGap(lens, |lens|, s, 16, 0);
  }

  // Every point below a position is covered by a symbol before that position.
  lemma {:induction false} FindBelow(lens: seq<bitlen>, l: nat, k: nat, x: nat) returns (s: nat)
    requires k <= |lens| && l <= 16 && x < Below(lens, |lens|, l, k)
    ensures Coded(lens, s) && Covers(lens, s, x) && Before(lens[s], s, l, k)
    decreases l, k
  {
    if l == 0 {
      BelowNothing(lens, |lens|, k);
    } else if k == 0 {
      BelowLevel(lens, |lens|, l - 1, |lens|);
      s := FindBelow(lens, l - 1, |lens|, x);
    } else {
      BelowStep(lens, |lens|, l, k - 1);
      if x < Below(lens, |lens|, l, k - 1) {
        s := FindBelow(lens, l, k - 1, x);
      } else {
        s := k - 1;
      }
    }
  }

  lemma {:induction false} BelowNothing(lens: seq<bitlen>, n: nat, k: nat)
    requires n <= |lens|
    ensures Below(lens, n, 0, k) == 0
  {
    if n > 0 { BelowNothing(lens, n - 1, k); }
  }

  // ------------------------------------------------------------ code words

  // A packed code word is the reversal of its starting point.
  lemma HuffStart(lens: seq<bitlen>, s: nat)
    requires Coded(lens, s) && Kraft(lens) <= Pow2(15)
    ensures Huff(lens, s) == Rev(Start(lens, s), 15)
    ensures Rev(Huff(lens, s), 15) == Start(lens, s)
  {
    CodeFits(lens, s);
    RevShift(Start(lens, s), Code(lens, s), lens[s], 15);
    RevRev(Start(lens, s), 15);
    CoversBelowKraft(lens, s);
    LoSmall(Start(lens, s), 15);
  }

  // A bit buffer h begins with the packed code of s exactly when its first
  // fifteen bits fall into the interval of s.
  lemma MatchIffCovers(lens: seq<bitlen>, s: nat, h: nat)
    requires Coded(lens, s) && Kraft(lens) <= Pow2(15)
    ensures Lo(h, lens[s]) == Huff(lens, s) <==> Covers(lens, s, Rev(h, 15))
  {
    var l := lens[s];
    var x, c := Rev(h, 15), Code(lens, s);
    CodeFits(lens, s);
    RevPrefix(h, l, 15);
    HiIffInterval(x, c, 15 - l);
    RevLow(h, l);
    RevRev(c, l);
    LoSmall(c, l);
    RevRev(Lo(h, l), l);
    LoLo(h, l, l);
  }

  lemma HiIffInterval(x: nat, c: nat, n: nat)
    ensures Hi(x, n) == c <==> c * Pow2(n) <= x < c * Pow2(n) + Pow2(n)
  {
    LoHi(x, n);
    if c * Pow2(n) <= x < c * Pow2(n) + Pow2(n) {
      LoOfJoin(c, x - c * Pow2(n), n);
    }
  }

  lemma CodeFits(lens: seq<bitlen>, s: nat)
    requires Coded(lens, s) && Kraft(lens) <= Pow2(15)
    ensures Code(lens, s) < Pow2(lens[s])
    ensures Start(lens, s) == Code(lens, s) * Pow2(15 - lens[s])
  {
    hide Below, Units, Pow2;
    var l := lens[s];
    var c, d := Code(lens, s), Pow2(15 - l);
    BelowUnits(lens, |lens|, l, s);
    CoversBelowKraft(lens, s);
    Pow2Split(l, 15);
    if c >= Pow2(l) {
      MulMono(Pow2(l), c, d);
    }
  }

  // The code is prefix-free: no buffer begins with the codes of two symbols.
  lemma PrefixFree(lens: seq<bitlen>, s: nat, t: nat, h: nat)
    requires Coded(lens, s) && Coded(lens, t) && Kraft(lens) <= Pow2(15)
    requires Lo(h, lens[s]) == Huff(lens, s) && Lo(h, lens[t]) == Huff(lens, t)
    ensures s == t
  {
    MatchIffCovers(lens, s, h);
    MatchIffCovers(lens, t, h);
    CoversUnique(lens, s, t, Rev(h, 15));
  }

  // A complete code leaves no buffer undecodable.
  lemma CompleteDecodes(lens: seq<bitlen>, h: nat) returns (s: nat)
    requires Kraft(lens) == Pow2(15)
    ensures Coded(lens, s) && Lo(h, lens[s]) == Huff(lens, s)
  {
    s := FindBelow(lens, 16, 0, Rev(h, 15));
    MatchIffCovers(lens, s, h);
  }
}
