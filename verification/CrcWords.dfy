// Eight bytes at a time (deps/zlib/crc32.c:612-626, 735-800): a 64-bit word is the bytes it was
// loaded from, lowest first, and both crc_word and a row of braid tables multiply it by a power
// of x.

module CrcWords {
  import opened CrcField
  import opened CrcProduct
  import opened CrcTables
  import opened Words

  // A register in the low half of a word.
  function Wide(c: Poly): Word { Word(c.v as bv64) }

  function LoHalf(a: Word): Poly { Poly((a.w & 0xffff_ffff) as bv32) }

  function HiHalf(a: Word): Poly { Poly((a.w >> 32) as bv32) }

  // The polynomial of a word, 64 coefficients reduced modulo p(x).
  function Value(a: Word): Poly { Add(Xn(LoHalf(a), 32), HiHalf(a)) }

  // What the word leaves in a register that started at zero.
  function WordCrc(a: Word): Poly { Xn(Value(a), 32) }

  // ------------------------------------------------------------ halves

  lemma LoXor(a: Word, b: Word)
    ensures LoHalf(Xored(a, b)) == Add(LoHalf(a), LoHalf(b))
  {}

  lemma HiXor(a: Word, b: Word)
    ensures HiHalf(Xored(a, b)) == Add(HiHalf(a), HiHalf(b))
  {}

  lemma WideHalves(c: Poly)
    ensures LoHalf(Wide(c)) == c && HiHalf(Wide(c)) == ZERO
  {}

  lemma ShiftedHalves(a: Word)
    ensures LoHalf(Shifted(a)) == Add(Down(LoHalf(a)), High(LowByte(HiHalf(a))))
    ensures HiHalf(Shifted(a)) == Down(HiHalf(a))
    ensures FirstByte(a) == LowByte(LoHalf(a))
  {
    hide LoHalf, HiHalf, Shifted, FirstByte, LowByte, Down, Add, High;
    ShiftedLo(a);
    ShiftedHi(a);
    FirstOf(a);
  }

  lemma LoBits(a: bv64)
    ensures ((a >> 8) & 0xffff_ffff) as bv32
         == (((a & 0xffff_ffff) as bv32) >> 8) ^ ((((((a >> 32) as bv32) & 0xff) as bv8) as bv32) << 24)
  {}

  lemma ShiftedLo(a: Word)
    ensures LoHalf(Shifted(a)) == Add(Down(LoHalf(a)), High(LowByte(HiHalf(a))))
  {
    LoBits(a.w);
  }

  lemma ShiftedHi(a: Word)
    ensures HiHalf(Shifted(a)) == Down(HiHalf(a))
  {}

  lemma FirstOf(a: Word)
    ensures FirstByte(a) == LowByte(LoHalf(a))
  {}

  lemma ValueXor(a: Word, b: Word)
    ensures Value(Xored(a, b)) == Add(Value(a), Value(b))
  {
    hide Xn, Add, LoHalf, HiHalf, Xored;
    LoXor(a, b);
    HiXor(a, b);
    XnAdds(LoHalf(a), LoHalf(b), 32);
    Regroup(Xn(LoHalf(a), 32), Xn(LoHalf(b), 32), HiHalf(a), HiHalf(b));
  }

  lemma ValueWide(c: Poly)
    ensures Value(Wide(c)) == Xn(c, 32)
  {
    hide Xn, Add, LoHalf, HiHalf, Wide;
    WideHalves(c);
    AddZero(Xn(c, 32));
  }

  // The register of the first braid goes in with the word.
  lemma WordCrcOf(c: Poly, a: Word)
    ensures WordCrc(Xored(Wide(c), a)) == Add(Xn(c, 64), WordCrc(a))
  {
    hide Xn, Add, Value, Xored, Wide;
    ValueXor(Wide(c), a);
    ValueWide(c);
    XnAdds(Xn(c, 32), Value(a), 32);
    XnPlus(c, 32, 32);
  }

  // ------------------------------------------------------------ shifting a byte out

  // x^8 times a word is the word shifted, plus what its first byte becomes.
  lemma ShiftOut(a: Word)
    ensures Xn(Value(a), 8) == Add(Value(Shifted(a)), Xn(Of(FirstByte(a)), 40))
  {
    hide Xn, Add, LoHalf, HiHalf, Shifted, Down, High, Of, LowByte, FirstByte;
    var lo, hi := LoHalf(a), HiHalf(a);
    var b, h := LowByte(lo), LowByte(hi);
    ShiftedHalves(a);
    XnAdds(Xn(lo, 32), hi, 8);
    XnPlus(lo, 32, 8);
    XnPlus(lo, 8, 32);
    EightSteps(lo);
    EightSteps(hi);
    XnAdds(Down(lo), Xn(Of(b), 8), 32);
    XnPlus(Of(b), 8, 32);
    XnAdds(Down(lo), High(h), 32);
    HighIs(h);
    XnPlus(High(h), 24, 8);
    Shuffle(Xn(Down(lo), 32), Xn(Of(b), 40), Down(hi), Xn(Of(h), 8));
  }

  lemma Shuffle(p: Poly, q: Poly, r: Poly, s: Poly)
    ensures Add(Add(p, q), Add(r, s)) == Add(Add(Add(p, s), r), q)
  {
    hide Add;
    Regroup(p, q, r, s);
    AddAssoc(q, s, p);
    AddAssoc(r, s, q);
    AddAssoc(Add(p, s), r, q);
    AddAssoc(q, r, s);
    AddAssoc(p, r, Add(q, s));
    AddAssoc(r, q, s);
    AddAssoc(p, s, r);
    AddAssoc(p, r, s);
    AddAssoc(q, Add(p, r), s);
    AddAssoc(Add(p, r), s, q);
    AddAssoc(s, r, p);
  }

  // The bytes of a word moved past the rest of it.
  function ByteSum(a: Word, n: nat): Poly
    requires n <= W
  {
    if n == 0 then ZERO else Add(ByteSum(a, n - 1), Xn(Of(ByteAt(a, n - 1)), 8 * (W - (n - 1))))
  }

  lemma {:induction false} LaterSum(a: Word, n: nat)
    requires n <= W
    ensures Xn(Value(a), 8 * W) == Add(Xn(Value(Later(a, n)), 8 * (W - n)), Xn(ByteSum(a, n), 32))
  {
    hide Xn, Add, Value, Shifted, FirstByte, Of;
    if n == 0 {
      XnZero(32);
      AddZero(Xn(Value(a), 8 * W));
    } else {
      LaterSum(a, n - 1);
      var l, b := Later(a, n - 1), Of(ByteAt(a, n - 1));
      var m := 8 * (W - n);
      ShiftOut(l);
      XnPlus(Value(l), 8, m);
      XnAdds(Value(Shifted(l)), Xn(b, 40), m);
      XnPlus(b, 40, m);
      XnPlus(b, m + 8, 32);
      XnAdds(ByteSum(a, n - 1), Xn(b, m + 8), 32);
      var v, x, s := Xn(Value(Shifted(l)), m), Xn(b, 40 + m), Xn(ByteSum(a, n - 1), 32);
      AddAssoc(v, x, s);
      AddAssoc(x, s, v);
    }
  }

  // A word leaves the sum of its bytes, each moved past the bytes after it.
  lemma WordIsBytes(a: Word)
    ensures WordCrc(a) == ByteSum(a, W)
  {
    hide Xn, Add, Value, Later, ByteSum;
    LaterSum(a, W);
    LaterGone(a);
    NoValue();
    XnZero(0);
    AddZero(Xn(ByteSum(a, W), 32));
    XnPlus(Value(a), 32, 32);
    XnCancel(WordCrc(a), ByteSum(a, W), 32);
  }

  lemma NoValue()
    ensures Value(Word(0)) == ZERO
  {
    hide Xn, Add;
    XnZero(32);
    AddZero(ZERO);
    assert LoHalf(Word(0)) == ZERO && HiHalf(Word(0)) == ZERO;
  }

  // ------------------------------------------------------------ crc_word

  lemma TableAdded(d: Word)
    ensures Xn(Value(d), 8) == Value(Xored(Shifted(d), Wide(Xn(Of(FirstByte(d)), 8))))
    ensures HiHalf(Xored(Shifted(d), Wide(Xn(Of(FirstByte(d)), 8)))) == Shr(HiHalf(d), 8)
  {
    hide Xn, Add, Value, Shifted, FirstByte, Of, Wide, Xored, Shr, HiHalf, LoHalf, Down, LowByte, High;
    var t := Xn(Of(FirstByte(d)), 8);
    ShiftOut(d);
    ValueXor(Shifted(d), Wide(t));
    ValueWide(t);
    XnPlus(Of(FirstByte(d)), 8, 32);
    HiXor(Shifted(d), Wide(t));
    WideHalves(t);
    ShiftedHalves(d);
    AddZero(Down(HiHalf(d)));
    ShrEight(HiHalf(d));
  }

  lemma ShrMore(a: Poly)
    ensures Shr(a, 64) == ZERO
  {
    hide Shr;
    ShrOut(a);
    ShrPlus(a, 32, 32);
    ShrZero(32);
  }

  lemma WordStart(d: Word)
    ensures Shr(HiHalf(d), 0) == HiHalf(d)
  {}

  // What is left is all in the low half.
  lemma WordEnd(d: Word, a: Word)
    requires Xn(Value(d), 0) == Xn(Value(a), 64)
    requires HiHalf(d) == Shr(HiHalf(a), 64)
    ensures LoHalf(d) == WordCrc(a)
  {
    hide Xn, Add, Shr, HiHalf, LoHalf;
    ShrMore(HiHalf(a));
    AddZero(Xn(LoHalf(d), 32));
    assert Xn(Value(d), 0) == Value(d) by { Starts(Value(d), Value(d)); }
    XnPlus(Value(a), 32, 32);
    XnCancel(LoHalf(d), WordCrc(a), 32);
  }

  method CrcWord(t: Tables, data: Word) returns (r: Poly)
    requires t.Valid()
    ensures r == WordCrc(data)
  {
    hide Xn, Add, Value, Shifted, FirstByte, Of, Wide, Xored, Shr, HiHalf, LoHalf, WordCrc, Index, At,
      BraidRow, PowerTable;
    var d := data;
    WordStart(d);
    for k := 0 to W
      invariant Xn(Value(d), 8 * (W - k)) == Xn(Value(data), 64)
      invariant HiHalf(d) == Shr(HiHalf(data), 8 * k)
    {
      var b := FirstByte(d);
      TableAdded(d);
      XnPlus(Value(d), 8, 8 * (W - k) - 8);
      ShrPlus(HiHalf(data), 8 * k, 8);
      IndexAt(b);
      assert t.crc[..][Index(b)] == t.crc[Index(b)];
      d := Xored(Shifted(d), Wide(t.crc[Index(b)]));
    }
    WordEnd(d, data);
    r := LoHalf(d);
  }

  // ------------------------------------------------------------ a row of braid tables

  // One braid's word moved past itself and past a whole block but one word: N * W bytes.
  method BraidWord(t: Tables, a: Word) returns (r: Poly)
    requires t.Valid()
    ensures r == Xn(WordCrc(a), 8 * (N - 1) * W)
  {
    hide Xn, Add, Value, Shifted, FirstByte, Of, WordCrc, Index, At, ByteTable, PowerTable, Later, ByteAt;
    var b0 := ByteAt(a, 0);
    BraidTerm(t, b0, 0);
    r := t.braid[0, Index(b0)];
    SumStart(a, r);
    for k := 1 to W
      invariant r == Xn(ByteSum(a, k), 256)
    {
      var b := ByteAt(a, k);
      BraidTerm(t, b, k);
      XnAdds(ByteSum(a, k), Xn(Of(b), 8 * (W - k)), 256);
      XnPlus(Of(b), 8 * (W - k), 256);
      r := Add(r, t.braid[k, Index(b)]);
    }
    WordIsBytes(a);
  }

  lemma BraidTerm(t: Tables, b: bv8, k: nat)
    requires t.Valid() && k < W
    ensures t.braid[k, Index(b)] == Xn(Of(b), 8 * (N * W - k))
  {
    hide Xn, Of, Index, At, ByteTable, PowerTable;
    IndexAt(b);
    assert BraidRow(t.braid, k);
  }

  lemma SumStart(a: Word, r: Poly)
    requires r == Xn(Of(ByteAt(a, 0)), 8 * (N * W))
    ensures r == Xn(ByteSum(a, 1), 256)
  {
    hide Xn, Add, Of, Later, ByteAt;
    XnPlus(Of(ByteAt(a, 0)), 64, 256);
    AddZero(Xn(Of(ByteAt(a, 0)), 64));
    assert ByteSum(a, 1) == Add(ByteSum(a, 0), Xn(Of(ByteAt(a, 0)), 64));
  }
}
