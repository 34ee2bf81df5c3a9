// The bit buffer of the encoder: send_bits, bi_flush and bi_windup of
// deps/zlib/trees.c.

module BitOutput {
  import opened Powers
  import opened Bits

  const BUF_SIZE := 16

  lemma BitsOfByte(b: byte)
    ensures BytesToBits([b]) == BitsOf(b, 8)
  {
    assert BytesToBits([b]) == BitsOf(b, 8) + BytesToBits([]);
  }

  // A 16-bit word goes out low byte first.
  lemma ShortBits(w: nat, lo: byte, hi: byte)
    requires lo == Lo(w, 8) && hi == Hi(w, 8)
    ensures BytesToBits([lo, hi]) == BitsOf(w, 16)
  {
    BitsOfByte(lo);
    BitsOfByte(hi);
    BytesToBitsConcat([lo], [hi]);
    assert [lo] + [hi] == [lo, hi];
    BitsOfSplit(w, 8, 16);
    BitsOfLow(w, 8);
  }

  class BitBuffer {
    var biBuf: nat
    var biValid: nat
    var pending: seq<byte>

    ghost predicate Valid()
      reads this
    {
      biValid <= BUF_SIZE && biBuf < Pow2(biValid)
    }

    // Every bit sent so far, whether already in a byte or still in the buffer.
    ghost function Written(): seq<bool>
      reads this
    {
      BytesToBits(pending) + BitsOf(biBuf, biValid)
    }

    constructor ()
      ensures Valid() && Written() == [] && pending == []
    {
      biBuf, biValid, pending := 0, 0, [];
    }

    method PutByte(c: byte)
      modifies `pending
      ensures pending == old(pending) + [c]
    {
      pending := pending + [c];
    }

    method PutShort(w: nat)
      requires w < 0x1_0000
      modifies `pending
      ensures BytesToBits(pending) == BytesToBits(old(pending)) + BitsOf(w, 16)
    {
      LoHiIs(w, 8);
      SmallPower8();
      var lo, hi := w % 256, w / 256;
      PutByte(lo);
      PutByte(hi);
      ShortBits(w, lo, hi);
      BytesToBitsConcat(old(pending), [lo, hi]);
      assert pending == old(pending) + [lo, hi];
    }

    static lemma SmallPower8()
      ensures Pow2(8) == 256
    {}

    static lemma SmallPower16()
      ensures Pow2(16) == 0x1_0000
    {
      Pow2Add(8, 8);
      SmallPower8();
    }

    // Appends the `length` low bits of value, least significant first.
    method SendBits(value: nat, length: nat)
      requires Valid() && length <= 16 && value < Pow2(length)
      modifies this
      ensures Valid()
      ensures Written() == old(Written()) + BitsOf(value, length)
    {
      hide Lo, Hi, BitsOf, BytesToBits;
      ghost var v := biValid;
      ghost var t := Join(value, biBuf, v);
      AppendBits(biBuf, v, value, length);
      SmallPower16();
      // the bits of biBuf above biValid are 0: adding is or-ing
      var sum := biBuf + value * Pow2(biValid);
      if biValid > BUF_SIZE - length {
        LoHiIs(sum, 16);
        biBuf := sum % 0x1_0000;
        PutShort(biBuf);
        LoHiIs(value, BUF_SIZE - biValid);
        biBuf := value / Pow2(BUF_SIZE - biValid);
        biValid := biValid + length - BUF_SIZE;
        SendSplit(value, old(biBuf), v, length);
      } else {
        biBuf := sum;
        biValid := biValid + length;
        JoinBound(value, old(biBuf), v, length);
      }
      assert old(Written()) + BitsOf(value, length) ==
        BytesToBits(old(pending)) + (BitsOf(old(biBuf), v) + BitsOf(value, length));
    }

    static lemma SendSplit(x: nat, b: nat, v: nat, len: nat)
      requires b < Pow2(v) && x < Pow2(len) && v <= 16 < v + len
      ensures BitsOf(Join(x, b, v), v + len) == BitsOf(Lo(Join(x, b, v), 16), 16) + BitsOf(Hi(x, 16 - v), v + len - 16)
      ensures Hi(x, 16 - v) < Pow2(v + len - 16)
    {
      var t := Join(x, b, v);
      BitsOfSplit(t, 16, v + len);
      BitsOfLow(t, 16);
      LoOfJoin(x, b, v);
      HiHi(t, v, 16 - v);
      HiFits(x, 16 - v, len);
    }

    // Keeps at most 7 bits in the buffer.
    method BiFlush()
      requires Valid()
      modifies this
      ensures Valid() && biValid <= 7 && Written() == old(Written())
    {
      SmallPower16();
      SmallPower8();
      if biValid == 16 {
        PutShort(biBuf);
        biBuf, biValid := 0, 0;
      } else if biValid >= 8 {
        LoHiIs(biBuf, 8);
        FlushSplit(biBuf, biValid, pending, biBuf % 256);
        PutByte(biBuf % 256);
        biBuf := biBuf / 256;
        biValid := biValid - 8;
      }
    }

    static lemma FlushSplit(b: nat, v: nat, pending: seq<byte>, c: byte)
      requires 8 <= v && b < Pow2(v) && c == Lo(b, 8)
      ensures BytesToBits(pending) + BitsOf(b, v) == BytesToBits(pending + [c]) + BitsOf(Hi(b, 8), v - 8)
      ensures Hi(b, 8) < Pow2(v - 8)
    {
      hide Pow2, Lo, Hi, BitsOf, BytesToBits;
      BitsOfSplit(b, 8, v);
      BitsOfLow(b, 8);
      BitsOfByte(c);
      BytesToBitsConcat(pending, [c]);
      HiFits(b, 8, v);
    }

    // Pads with zero bits to a byte boundary.
    method BiWindup()
      requires Valid()
      modifies this
      ensures Valid() && biValid == 0
      ensures Written() == old(Written()) + BitsOf(0, (16 - old(biValid)) % 8)
    {
      ghost var w := Written();
      if biValid > 8 {
        WindupWord(pending, biBuf, biValid);
        PutShort(biBuf);
      } else if biValid > 0 {
        WindupByte(pending, biBuf, biValid);
        PutByte(biBuf);
      }
      biBuf, biValid := 0, 0;
    }

    static lemma WindupWord(pending: seq<byte>, b: nat, v: nat)
      requires 8 < v <= 16 && b < Pow2(v)
      ensures b < 0x1_0000
      ensures BytesToBits(pending) + BitsOf(b, 16) == BytesToBits(pending) + BitsOf(b, v) + BitsOf(0, (16 - v) % 8)
    {
      hide Pow2, Lo, Hi, BitsOf, BytesToBits;
      SmallPower16();
      Pow2Mono(v, 16);
      PadWord(b, v, 16);
    }

    static lemma WindupByte(pending: seq<byte>, b: nat, v: nat)
      requires 0 < v <= 8 && b < Pow2(v)
      ensures b < 256
      ensures BytesToBits(pending + [b]) == BytesToBits(pending) + BitsOf(b, v) + BitsOf(0, (16 - v) % 8)
    {
      hide Pow2, Lo, Hi, BitsOf, BytesToBits;
      SmallPower8();
      Pow2Mono(v, 8);
      PadWord(b, v, 8);
      BitsOfByte(b);
      BytesToBitsConcat(pending, [b]);
      Assoc(BytesToBits(pending), BitsOf(b, v), BitsOf(0, 8 - v));
    }

    static lemma PadWord(b: nat, v: nat, n: nat)
      requires b < Pow2(v) && v <= n
      ensures BitsOf(b, n) == BitsOf(b, v) + BitsOf(0, n - v)
    {
      AppendBits(b, v, 0, n - v);
    }
  }
}
