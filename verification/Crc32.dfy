// The CRC of a buffer (deps/zlib/crc32.c:612-626, 639-1040): byte by byte, braided over five
// streams of words, and combined from the CRCs of two halves.

module Crc32 {
  import opened Powers
  import opened CrcField
  import opened CrcProduct
  import opened CrcTables

  // ------------------------------------------------------------ the simple fold

  // One byte: added into the register, which is then multiplied by x eight times.
  function Step(c: Poly, b: bv8): Poly { Xn(Add(c, Of(b)), 8) }

  function Raw(c: Poly, s: seq<bv8>): Poly {
    if s == [] then c else Step(Raw(c, s[..|s| - 1]), s[|s| - 1])
  }

  const ONES := Poly(0xffff_ffff)

  // The CRC of s after one that gave crc (section 8 of RFC 1952).
  function Crc(crc: Poly, s: seq<bv8>): Poly { Add(Raw(Add(crc, ONES), s), ONES) }

  lemma {:induction false} RawAppends(c: Poly, s: seq<bv8>, t: seq<bv8>)
    ensures Raw(c, s + t) == Raw(Raw(c, s), t)
  {
    hide Step;
    if t == [] {
      assert s + t == s;
    } else {
      RawAppends(c, s, t[..|t| - 1]);
      assert (s + t)[..|s + t| - 1] == s + t[..|t| - 1];
    }
  }

  // The register enters linearly.
  lemma {:induction false} RawAdds(c: Poly, d: Poly, s: seq<bv8>)
    ensures Raw(Add(c, d), s) == Add(Raw(c, s), Xn(d, 8 * |s|))
  {
    hide Xn, Add, Of;
    if s == [] {
      assert Xn(d, 0) == d by { Starts(d, d); }
    } else {
      var s', b := s[..|s| - 1], s[|s| - 1];
      RawAdds(c, d, s');
      var e := Xn(d, 8 * |s'|);
      AddAssoc(Raw(c, s'), e, Of(b));
      AddAssoc(e, Of(b), e);
      AddAssoc(Raw(c, s'), Of(b), e);
      XnAdds(Add(Raw(c, s'), Of(b)), e, 8);
      XnPlus(d, 8 * |s'|, 8);
    }
  }

  lemma RawFrom(c: Poly, s: seq<bv8>)
    ensures Raw(c, s) == Add(Raw(ZERO, s), Xn(c, 8 * |s|))
  {
    hide Add, Raw, Xn;
    RawAdds(ZERO, c, s);
    AddZero(c);
  }

  // Calls in a row give the CRC of the whole.
  lemma CrcAppends(crc: Poly, s: seq<bv8>, t: seq<bv8>)
    ensures Crc(Crc(crc, s), t) == Crc(crc, s + t)
  {
    hide Add, Raw;
    var r := Raw(Add(crc, ONES), s);
    RawAppends(Add(crc, ONES), s, t);
    AddAssoc(r, ONES, ONES);
    AddZero(ONES);
    AddZero(r);
  }

  // ------------------------------------------------------------ the residue

  lemma EightTimes(c: Poly)
    ensures Xn(c, 8) == X(X(X(X(X(X(X(X(c))))))))
  {
    hide X;
    assert Xn(c, 1) == X(Xn(c, 0)) && Xn(c, 2) == X(Xn(c, 1)) && Xn(c, 3) == X(Xn(c, 2));
    assert Xn(c, 4) == X(Xn(c, 3)) && Xn(c, 5) == X(Xn(c, 4)) && Xn(c, 6) == X(Xn(c, 5));
    assert Xn(c, 7) == X(Xn(c, 6)) && Xn(c, 8) == X(Xn(c, 7));
  }

  lemma OnesByOne()
    ensures Xn(Poly(0xffff_ffff), 8) == Poly(0x2dfd_1072)
  {
    EightTimes(Poly(0xffff_ffff));
    assert X(Poly(0xffff_ffff)) == Poly(0x9247_7cdf);
    assert X(Poly(0x9247_7cdf)) == Poly(0xa49b_3d4f);
    assert X(Poly(0xa49b_3d4f)) == Poly(0xbff5_1d87);
    assert X(Poly(0xbff5_1d87)) == Poly(0xb242_0de3);
    assert X(Poly(0xb242_0de3)) == Poly(0xb499_85d1);
    assert X(Poly(0xb499_85d1)) == Poly(0xb7f4_41c8);
    assert X(Poly(0xb7f4_41c8)) == Poly(0x5bfa_20e4);
    assert X(Poly(0x5bfa_20e4)) == Poly(0x2dfd_1072);
  }

  lemma OnesByTwo()
    ensures Xn(Poly(0x2dfd_1072), 8) == Poly(0xbe26_ed00)
  {
    EightTimes(Poly(0x2dfd_1072));
    assert X(Poly(0x2dfd_1072)) == Poly(0x16fe_8839);
    assert X(Poly(0x16fe_8839)) == Poly(0xe6c7_c73c);
    assert X(Poly(0xe6c7_c73c)) == Poly(0x7363_e39e);
    assert X(Poly(0x7363_e39e)) == Poly(0x39b1_f1cf);
    assert X(Poly(0x39b1_f1cf)) == Poly(0xf160_7bc7);
    assert X(Poly(0xf160_7bc7)) == Poly(0x9508_bec3);
    assert X(Poly(0x9508_bec3)) == Poly(0xa73c_dc41);
    assert X(Poly(0xa73c_dc41)) == Poly(0xbe26_ed00);
  }

  lemma OnesByThree()
    ensures Xn(Poly(0xbe26_ed00), 8) == Poly(0x00be_26ed)
  {
    EightTimes(Poly(0xbe26_ed00));
    assert X(Poly(0xbe26_ed00)) == Poly(0x5f13_7680);
    assert X(Poly(0x5f13_7680)) == Poly(0x2f89_bb40);
    assert X(Poly(0x2f89_bb40)) == Poly(0x17c4_dda0);
    assert X(Poly(0x17c4_dda0)) == Poly(0x0be2_6ed0);
    assert X(Poly(0x0be2_6ed0)) == Poly(0x05f1_3768);
    assert X(Poly(0x05f1_3768)) == Poly(0x02f8_9bb4);
    assert X(Poly(0x02f8_9bb4)) == Poly(0x017c_4dda);
    assert X(Poly(0x017c_4dda)) == Poly(0x00be_26ed);
  }

  lemma OnesByFour()
    ensures Xn(Poly(0x00be_26ed), 8) == Poly(0xdebb_20e3)
  {
    EightTimes(Poly(0x00be_26ed));
    assert X(Poly(0x00be_26ed)) == Poly(0xede7_9056);
    assert X(Poly(0xede7_9056)) == Poly(0x76f3_c82b);
    assert X(Poly(0x76f3_c82b)) == Poly(0xd6c1_6735);
    assert X(Poly(0xd6c1_6735)) == Poly(0x86d8_30ba);
    assert X(Poly(0x86d8_30ba)) == Poly(0x436c_185d);
    assert X(Poly(0x436c_185d)) == Poly(0xcc0e_8f0e);
    assert X(Poly(0xcc0e_8f0e)) == Poly(0x6607_4787);
    assert X(Poly(0x6607_4787)) == Poly(0xdebb_20e3);
  }

  lemma OnesOut()
    ensures Xn(ONES, 32) == Poly(0xdebb_20e3)
  {
    hide X, Xn;
    OnesByOne();
    OnesByTwo();
    OnesByThree();
    OnesByFour();
    XnPlus(ONES, 8, 8);
    XnPlus(ONES, 16, 8);
    XnPlus(ONES, 24, 8);
  }

  // A register that takes in its own lowest byte drops it.
  lemma OwnByte(d: Poly, c: Poly)
    ensures Step(Add(d, c), LowByte(c)) == Add(Xn(d, 8), Down(c))
  {
    hide Xn, Add, Down, Of, LowByte;
    var b := Of(LowByte(c));
    AddAssoc(d, c, b);
    XnAdds(d, Add(c, b), 8);
    XnAdds(c, b, 8);
    EightSteps(c);
    AddAssoc(Down(c), Xn(b, 8), Xn(b, 8));
    AddZero(Xn(b, 8));
    AddZero(Down(c));
  }

  lemma FourDown(c: Poly)
    ensures Down(Down(Down(Down(c)))) == ZERO
  {}

  // Its four bytes, lowest first.
  function BytesOf(c: Poly): seq<bv8> {
    [LowByte(c), LowByte(Down(c)), LowByte(Down(Down(c))), LowByte(Down(Down(Down(c))))]
  }

  lemma BytesSpelt(c: Poly)
    ensures BytesOf(c) == [(c.v & 0xff) as bv8, ((c.v >> 8) & 0xff) as bv8, ((c.v >> 16) & 0xff) as bv8, ((c.v >> 24) & 0xff) as bv8]
  {}

  lemma RawNext(c: Poly, s: seq<bv8>, b: bv8)
    ensures Raw(c, s + [b]) == Step(Raw(c, s), b)
  {
    assert (s + [b])[..|s|] == s;
  }

  lemma RawFour(e: Poly, a: bv8, b: bv8, c: bv8, d: bv8)
    ensures Raw(e, [a, b, c, d]) == Step(Step(Step(Step(e, a), b), c), d)
  {
    hide Raw, Step;
    RawNone(e);
    RawNext(e, [], a);
    assert [] + [a] == [a] && [a] + [b] == [a, b] && [a, b] + [c] == [a, b, c] && [a, b, c] + [d] == [a, b, c, d];
    RawNext(e, [a], b);
    RawNext(e, [a, b], c);
    RawNext(e, [a, b, c], d);
  }

  lemma OwnBytes(d: Poly, c: Poly)
    ensures Raw(Add(d, c), BytesOf(c)) == Xn(d, 32)
  {
    hide Raw, Step, Xn, Add, Down, LowByte;
    var c1, c2, c3 := Down(c), Down(Down(c)), Down(Down(Down(c)));
    RawFour(Add(d, c), LowByte(c), LowByte(c1), LowByte(c2), LowByte(c3));
    OwnByte(d, c);
    OwnByte(Xn(d, 8), c1);
    OwnByte(Xn(Xn(d, 8), 8), c2);
    OwnByte(Xn(Xn(Xn(d, 8), 8), 8), c3);
    XnPlus(d, 8, 8);
    XnPlus(d, 16, 8);
    XnPlus(d, 24, 8);
    FourDown(c);
    AddZero(Xn(d, 32));
  }

  lemma RawNone(c: Poly)
    ensures Raw(c, []) == c
  {}

  // A string with its CRC after it, lowest byte first, has one CRC whatever the string.
  lemma Residue(crc: Poly, s: seq<bv8>)
    ensures var c := Crc(crc, s).v;
      Crc(crc, s + [(c & 0xff) as bv8, ((c >> 8) & 0xff) as bv8, ((c >> 16) & 0xff) as bv8, ((c >> 24) & 0xff) as bv8])
        == Poly(0x2144_df1c)
  {
    hide Raw, Xn, Crc, BytesOf;
    BytesSpelt(Crc(crc, s));
    ResidueOf(crc, s);
  }

  lemma ResidueOf(crc: Poly, s: seq<bv8>)
    ensures Crc(crc, s + BytesOf(Crc(crc, s))) == Poly(0x2144_df1c)
  {
    hide Raw, Xn, BytesOf, Add;
    var c, r := Crc(crc, s), Raw(Add(crc, ONES), s);
    OwnBytes(ONES, c);
    RawAppends(Add(crc, ONES), s, BytesOf(c));
    AddAssoc(ONES, r, ONES);
    AddAssoc(r, ONES, ONES);
    AddZero(ONES);
    AddZero(r);
    OnesOut();
    ResidueValue();
  }

  lemma ResidueValue()
    ensures Add(Poly(0xdebb_20e3), ONES) == Poly(0x2144_df1c)
  {}

  // ------------------------------------------------------------ a byte by table

  lemma LowOfAdd(c: Poly, b: bv8)
    ensures Down(Add(c, Of(b))) == Down(c)
  {}

  // One byte of the table loop.
  lemma TableStep(c: Poly, b: bv8)
    ensures Step(c, b) == Add(Down(c), Xn(Of(LowByte(Add(c, Of(b)))), 8))
  {
    hide Xn, Add, Down, Of, LowByte;
    EightSteps(Add(c, Of(b)));
    LowOfAdd(c, b);
  }

  method ByteStep(t: Tables, c: Poly, b: bv8) returns (r: Poly)
    requires t.Valid()
    ensures r == Step(c, b)
  {
    hide Xn, Add, Down, Of, LowByte, Step, At, Index, BraidRow, PowerTable;
    var i := LowByte(Add(c, Of(b)));
    IndexAt(i);
    TableStep(c, b);
    assert t.crc[..][Index(i)] == t.crc[Index(i)];
    r := Add(Down(c), t.crc[Index(i)]);
  }

  // ------------------------------------------------------------ combining

  // Register differences move through the second part by a power of x.
  lemma CombineIs(crc: Poly, s: seq<bv8>, t: seq<bv8>)
    ensures Add(Mul(Power(8 * |t|), Crc(crc, s)), Crc(ZERO, t)) == Crc(crc, s + t)
  {
    hide Add, Raw, Mul, Power;
    var n := 8 * |t|;
    var r := Raw(Add(crc, ONES), s);
    XnIsMul(Crc(crc, s), n);
    RawAppends(Add(crc, ONES), s, t);
    RawFrom(r, t);
    RawFrom(ONES, t);
    XnAdds(r, ONES, n);
    AddZero(ONES);
    var z := Raw(ZERO, t);
    var e, f := Xn(r, n), Xn(ONES, n);
    AddAssoc(Add(e, f), Add(z, f), ONES);
    CrossTerms(e, f, z);
    AddAssoc(z, f, ONES);
    AddAssoc(e, z, ONES);
  }

  method Combine(t: Tables, crc1: Poly, crc2: Poly, len2: nat) returns (r: Poly)
    requires t.Valid()
    ensures forall crc: Poly, s: seq<bv8>, u: seq<bv8> ::
      |u| == len2 && crc1 == Crc(crc, s) && crc2 == Crc(ZERO, u) ==> r == Crc(crc, s + u)
  {
    hide Add, Raw, Crc, Power, Mul, BraidRow, ByteTable;
    var p := X2nModP(t.x2n, len2, 3);
    assert Pow2(3) == 8;
    p := MultModP(p, crc1);
    r := Add(p, crc2);
    forall crc: Poly, s: seq<bv8>, u: seq<bv8> |
      |u| == len2 && crc1 == Crc(crc, s) && crc2 == Crc(ZERO, u)
      ensures r == Crc(crc, s + u)
    {
      CombineIs(crc, s, u);
    }
  }
}
