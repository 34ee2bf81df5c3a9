// What the format asks of the parts that the encoder and the decoder share, in numbers of its own
// (sections 3.1.1, 3.2.2, 3.2.5 and 3.2.7 of RFC 1951): the base and extra bits of the codes, the
// order of bits, the canonical words and the repeats of code lengths.

module FormatLaws {
  import opened Powers
  import opened Bits
  import opened Canonical
  import opened TableLayout
  import opened BlockDecoding
  import opened CodeTables
  import opened TreeCodes
  import opened LengthRuns
  import opened TreeSending
  import opened CodeLengths

  // ------------------------------------------------------------ length and distance codes

  lemma FirstPowers()
    ensures Pow2(0) == 1 && Pow2(1) == 2 && Pow2(2) == 4 && Pow2(3) == 8 && Pow2(4) == 16 && Pow2(5) == 32
  {}

  // Length code c has the lengths from 3 + (4 + c % 4) * 2^(c / 4 - 1) on, as many as its extra
  // bits tell apart; the first four have one length each, and the last is 258 alone.
  lemma LengthLaw(c: nat)
    requires c < 29
    ensures c < 4 ==> LengthBase(c) == c + 3 && LengthExtra(c) == 0 == EXTRA_LBITS[c]
    ensures 4 <= c < 28 ==> LengthExtra(c) == c / 4 - 1 == EXTRA_LBITS[c] && LengthBase(c) == 3 + (4 + c % 4) * Pow2(c / 4 - 1)
    ensures c == 28 ==> LengthBase(c) == 258 && LengthExtra(c) == 0 == EXTRA_LBITS[c]
  {
    FirstPowers();
    if c < 16 { LengthLawShort(c); } else { LengthLawLong(c); }
  }

  lemma LengthLawShort(c: nat)
    requires c < 16
    ensures c < 4 ==> LBASE[c] == c + 3 && LEXT[c] == 16 && EXTRA_LBITS[c] == 0
    ensures 4 <= c ==> LEXT[c] == 15 + c / 4 && EXTRA_LBITS[c] == c / 4 - 1 && LBASE[c] == 3 + (4 + c % 4) * Pow2(c / 4 - 1)
  {
    FirstPowers();
    if c < 4 {
    } else if c < 8 {
      assert c / 4 == 1 && c % 4 == c - 4;
    } else if c < 12 {
      assert c / 4 == 2 && c % 4 == c - 8;
    } else {
      assert c / 4 == 3 && c % 4 == c - 12;
    }
  }

  lemma LengthLawLong(c: nat)
    requires 16 <= c < 29
    ensures c < 28 ==> LEXT[c] == 15 + c / 4 && EXTRA_LBITS[c] == c / 4 - 1 && LBASE[c] == 3 + (4 + c % 4) * Pow2(c / 4 - 1)
    ensures c == 28 ==> LBASE[c] == 258 && LEXT[c] == 16 && EXTRA_LBITS[c] == 0
  {
    FirstPowers();
    if c < 20 {
      assert c / 4 == 4 && c % 4 == c - 16;
    } else if c < 24 {
      assert c / 4 == 5 && c % 4 == c - 20;
    } else if c < 28 {
      assert c / 4 == 6 && c % 4 == c - 24;
    }
  }

  // Distance code d has the distances from 1 + (2 + d % 2) * 2^(d / 2 - 1) on, as many as its
  // extra bits tell apart; the first two have one each.
  lemma DistanceLaw(d: nat)
    requires d < 30
    ensures d < 2 ==> DistBase(d) == d + 1 && DistExtra(d) == 0 == EXTRA_DBITS[d]
    ensures 2 <= d ==> DistExtra(d) == d / 2 - 1 == EXTRA_DBITS[d] && DistBase(d) == 1 + (2 + d % 2) * Pow2(d / 2 - 1)
  {
    SamePowers();
    if d < 2 {
    } else if d < 12 {
      DistanceLawNear(d);
    } else if d < 22 {
      DistanceLawMiddle(d);
    } else {
      DistanceLawFar(d);
    }
  }

  predicate DistanceRight(d: nat)
    requires 2 <= d < 30
  {
    DEXT[d] == 15 + d / 2 && EXTRA_DBITS[d] == d / 2 - 1 && DBASE[d] == 1 + (2 + d % 2) * Pow2(d / 2 - 1)
  }

  lemma DistanceLawNear(d: nat)
    requires 2 <= d < 12
    ensures DistanceRight(d)
  {
    SamePowers();
    if d < 4 { assert d / 2 == 1 && d % 2 == d - 2; } else if d < 6 { assert d / 2 == 2 && d % 2 == d - 4; }
    else if d < 8 { assert d / 2 == 3 && d % 2 == d - 6; } else if d < 10 { assert d / 2 == 4 && d % 2 == d - 8; }
    else { assert d / 2 == 5 && d % 2 == d - 10; }
  }

  lemma DistanceLawMiddle(d: nat)
    requires 12 <= d < 22
    ensures DistanceRight(d)
  {
    SamePowers();
    if d < 14 { assert d / 2 == 6 && d % 2 == d - 12; } else if d < 16 { assert d / 2 == 7 && d % 2 == d - 14; }
    else if d < 18 { assert d / 2 == 8 && d % 2 == d - 16; } else if d < 20 { assert d / 2 == 9 && d % 2 == d - 18; }
    else { assert d / 2 == 10 && d % 2 == d - 20; }
  }

  lemma DistanceLawFar(d: nat)
    requires 22 <= d < 30
    ensures DistanceRight(d)
  {
    SamePowers();
    if d < 24 { assert d / 2 == 11 && d % 2 == d - 22; } else if d < 26 { assert d / 2 == 12 && d % 2 == d - 24; }
    else if d < 28 { assert d / 2 == 13 && d % 2 == d - 26; } else { assert d / 2 == 14 && d % 2 == d - 28; }
  }

  // What the tables tell of a literal/length symbol: a byte, the end, a length, or nothing valid.
  lemma LengthEntry(sym: nat, bits: nat)
    requires sym < 288
    ensures var e := SymbolEntry(LENS, sym, bits);
      && e.bits == bits
      && (sym < 256 ==> e.op == 0 && e.val == sym)
      && (sym == 256 ==> e.op == 96)
      && (257 <= sym < 261 ==> e.op == 16 && e.val == sym - 254)
      && (261 <= sym < 285 ==> e.op == 16 + ((sym - 257) / 4 - 1) && e.val == 3 + (4 + (sym - 257) % 4) * Pow2((sym - 257) / 4 - 1))
      && (sym == 285 ==> e.op == 16 && e.val == 258)
      && (286 <= sym ==> e.op / 64 % 2 == 1 && e.op / 16 % 2 == 0)
  {
    hide Pow2, LengthBase, LengthExtra;
    if 257 <= sym < 286 {
      LengthLaw(sym - 257);
      LengthParts(sym - 257);
    }
  }

  lemma LengthParts(c: nat)
    requires c < 29
    ensures LBASE[c] == LengthBase(c) && LEXT[c] == 16 + LengthExtra(c)
  {
    LengthExtras(c);
  }

  lemma DistanceEntry(sym: nat, bits: nat)
    requires sym < 32
    ensures var e := SymbolEntry(DISTS, sym, bits);
      && e.bits == bits
      && (sym < 2 ==> e.op == 16 && e.val == sym + 1)
      && (2 <= sym < 30 ==> e.op == 16 + (sym / 2 - 1) && e.val == 1 + (2 + sym % 2) * Pow2(sym / 2 - 1))
      && (30 <= sym ==> e.op == 64)
  {
    if sym < 30 { DistanceLaw(sym); }
  }

  // What a symbol makes the decoding machine do.
  lemma LengthStep(p: Codes, c: Conf, s: nat)
    requires c.mode == LEN && LookUp(p.llens, c.rest) == Found(s)
    ensures Step(p, c).Some? && Step(p, c).value.rest == c.rest[p.llens[s]..] && Step(p, c).value.out == c.out
    ensures var d := Step(p, c).value;
      && (s < 256 ==> d.mode == LIT && d.length == s)
      && (s == 256 ==> d.mode == TYPE)
      && (257 <= s < 261 ==> d.mode == LENEXT && d.extra == 0 && d.length == s - 254)
      && (261 <= s < 285 ==> d.mode == LENEXT && d.extra == (s - 257) / 4 - 1
                             && d.length == 3 + (4 + (s - 257) % 4) * Pow2((s - 257) / 4 - 1))
      && (s == 285 ==> d.mode == LENEXT && d.extra == 0 && d.length == 258)
      && (286 <= s ==> d.mode == BAD)
  {
    hide LookUp, LengthBase, LengthExtra;
    if 257 <= s < 286 { LengthLaw(s - 257); }
  }

  lemma DistanceStep(p: Codes, c: Conf, s: nat)
    requires c.mode == DIST && LookUp(p.dlens, c.rest) == Found(s)
    ensures Step(p, c).Some? && Step(p, c).value.rest == c.rest[p.dlens[s]..] && Step(p, c).value.out == c.out
    ensures var d := Step(p, c).value;
      && (s < 2 ==> d.mode == DISTEXT && d.extra == 0 && d.offset == s + 1)
      && (2 <= s < 30 ==> d.mode == DISTEXT && d.extra == s / 2 - 1 && d.offset == 1 + (2 + s % 2) * Pow2(s / 2 - 1))
      && (30 <= s ==> d.mode == BAD)
  {
    hide LookUp, DistBase, DistExtra;
    if s < 30 { DistanceLaw(s); }
  }

  // ------------------------------------------------------------ bits

  lemma {:induction false} BitAt(v: nat, n: nat, i: nat)
    requires i < n
    ensures BitsOf(v, n)[i] == (v / Pow2(i) % 2 == 1)
  {
    if i > 0 {
      BitAt(v / 2, n - 1, i - 1);
      LoHiIs(v / 2, i - 1);
      LoHiIs(v, i);
    }
  }

  // Bits come out of a byte from the least significant up.
  lemma {:induction false} ByteBits(bytes: seq<byte>, i: nat, j: nat)
    requires i < |bytes| && j < 8
    ensures BytesToBits(bytes)[8 * i + j] == (bytes[i] / Pow2(j) % 2 == 1)
  {
    if i == 0 { BitAt(bytes[0], 8, j); } else { ByteBits(bytes[1..], i - 1, j); }
  }

  // The later a bit the more it counts.
  lemma {:induction false} ValAppend(bs: seq<bool>, b: bool)
    ensures Val(bs + [b]) == Val(bs) + (if b then Pow2(|bs|) else 0)
  {
    if bs == [] {
      assert bs + [b] == [b] && [b][1..] == [];
    } else {
      assert (bs + [b])[1..] == bs[1..] + [b];
      ValAppend(bs[1..], b);
    }
  }

  // ------------------------------------------------------------ canonical words

  // How many of the first n symbols have a word of length l.
  function OfLength(lens: seq<bitlen>, n: nat, l: nat): set<nat>
    requires n <= |lens|
  {
    set i: nat | i < n && lens[i] == l
  }

  // The first word of length l: the one after the last shorter word, with a zero appended.
  function FirstWord(lens: seq<bitlen>, l: nat): nat {
    if l == 0 then 0 else 2 * (FirstWord(lens, l - 1) + if l == 1 then 0 else |OfLength(lens, |lens|, l - 1)|)
  }

  lemma {:induction false} CountIs(lens: seq<bitlen>, n: nat, l: nat)
    requires n <= |lens|
    ensures Count(lens, n, l) == |OfLength(lens, n, l)|
  {
    if n > 0 {
      CountIs(lens, n - 1, l);
      var before := OfLength(lens, n - 1, l);
      assert OfLength(lens, n, l) == if lens[n - 1] == l then before + {n - 1} else before;
    } else {
      assert OfLength(lens, 0, l) == {};
    }
  }

  lemma {:induction false} FirstWordIs(lens: seq<bitlen>, l: nat)
    ensures FirstWord(lens, l) == Units(lens, |lens|, l, 0)
  {
    if l == 0 {
      UnitsZero(lens, |lens|);
    } else {
      FirstWordIs(lens, l - 1);
      UnitsLevel(lens, |lens|, l - 1);
      CountIs(lens, |lens|, l - 1);
    }
  }

  lemma {:induction false} WordIs(lens: seq<bitlen>, l: nat, k: nat)
    requires 0 < l && k <= |lens|
    ensures Units(lens, |lens|, l, k) == FirstWord(lens, l) + |OfLength(lens, k, l)|
  {
    if k == 0 {
      FirstWordIs(lens, l);
      assert OfLength(lens, 0, l) == {};
    } else {
      WordIs(lens, l, k - 1);
      UnitsStep(lens, |lens|, l, k - 1);
      CountIs(lens, k, l);
      CountIs(lens, k - 1, l);
    }
  }

  lemma {:induction false} RevAt(v: nat, n: nat, i: nat)
    requires i < n
    ensures Rev(v, n) / Pow2(i) % 2 == v / Pow2(n - 1 - i) % 2
  {
    LoHiIs(v, n - 1);
    RevTop(v, n);
    if i == 0 {
      DigitOf(Rev(v, n - 1), Hi(v, n - 1) % 2);
    } else {
      LoHiIs(Rev(v, n), i);
      LoHiIs(Rev(v, n - 1), i - 1);
      DigitOf(Rev(v, n - 1), Hi(v, n - 1) % 2);
      RevAt(v, n - 1, i - 1);
    }
  }

  // The words of one length follow each other as their symbols do, and are sent from the most
  // significant bit down.
  lemma WordBits(lens: seq<bitlen>, s: nat, i: nat)
    requires Coded(lens, s) && i < lens[s]
    ensures CodeBits(lens, s)[i] ==
            ((FirstWord(lens, lens[s]) + |OfLength(lens, s, lens[s])|) / Pow2(lens[s] - 1 - i) % 2 == 1)
  {
    WordIs(lens, lens[s], s);
    BitAt(Huff(lens, s), lens[s], i);
    RevAt(Code(lens, s), lens[s], i);
  }

  // ------------------------------------------------------------ repeats of code lengths

  // What a code length symbol makes of the lengths read: itself below 16, the last one three to
  // six times, three to ten zeros, or 11 to 138.
  lemma RepeatStep(clens: seq<bitlen>, total: nat, c: LenConf, s: nat, x: nat)
    requires !c.bad && |c.lens| < total && LookUp(clens, c.rest) == Found(s) && s < 19
    requires x == if s < 16 then 0 else if s == 16 then 2 else if s == 17 then 3 else 7
    requires clens[s] + x <= |c.rest|
    ensures s < 16 ==> LenStep(clens, total, c) == Some(LenConf(false, c.lens + [s], c.rest[clens[s]..]))
    ensures var n := (if s == 18 then 11 else 3) + Val(c.rest[clens[s]..clens[s] + x]);
            16 <= s && (s == 16 ==> c.lens != []) && |c.lens| + n <= total ==>
            && LenStep(clens, total, c).Some?
            && LenStep(clens, total, c).value.rest == c.rest[clens[s] + x..] && !LenStep(clens, total, c).value.bad
            && |LenStep(clens, total, c).value.lens| == |c.lens| + n && c.lens <= LenStep(clens, total, c).value.lens
            && forall i | |c.lens| <= i < |c.lens| + n ::
                 LenStep(clens, total, c).value.lens[i] == if s == 16 then c.lens[|c.lens| - 1] else 0
  {
    hide LookUp, Val;
  }

  // And what is sent for a repeat.
  lemma RepeatBits(clens: seq<bitlen>, r: Run)
    requires Legal(r) && Coded(clens, SymbolOf(r))
    ensures r.Plain? ==> RunBits(clens, r) == CodeBits(clens, r.len)
    ensures r.Again? ==> 3 <= r.n <= 6 && RunBits(clens, r) == CodeBits(clens, 16) + BitsOf(r.n - 3, 2)
    ensures r.Zeros? && r.n <= 10 ==> 3 <= r.n && RunBits(clens, r) == CodeBits(clens, 17) + BitsOf(r.n - 3, 3)
    ensures r.Zeros? && r.n > 10 ==> r.n <= 138 && RunBits(clens, r) == CodeBits(clens, 18) + BitsOf(r.n - 11, 7)
  {}
}
