// The tables of make_crc_table and braid (deps/zlib/crc32.c:233-334): what every entry is, as
// a power of x times a byte.

module CrcTables {
  import opened Powers
  import opened CrcField
  import opened CrcProduct

  // ------------------------------------------------------------ cancelling x

  lemma {:induction false} XnCancel(a: Poly, b: Poly, n: nat)
    requires Xn(a, n) == Xn(b, n)
    ensures a == b
  {
    hide Xn, Add;
    XnAdds(a, b, n);
    AddZero(Xn(a, n));
    if Add(a, b) != ZERO {
      XnNonzero(Add(a, b), n);
    } else {
      AddAssoc(a, b, b);
      AddZero(a);
      AddZero(b);
    }
  }

  // The first n coefficients are 0.
  predicate Fits(b: Poly, n: nat)
    decreases n
  {
    n == 0 || (!Top(b) && Fits(Rest(b), n - 1))
  }

  // Every coefficient of b is one of c.
  predicate Under(b: Poly, c: Poly) { b.v & c.v == b.v }

  lemma UnderRest(b: Poly, c: Poly)
    requires Under(b, c)
    ensures Under(Rest(b), Rest(c))
    ensures Top(b) ==> Top(c)
  {}

  lemma {:induction false} FitsUnder(b: Poly, c: Poly, n: nat)
    requires Under(b, c) && Fits(c, n)
    ensures Fits(b, n)
    decreases n
  {
    hide Under, Top, Rest;
    if n > 0 {
      UnderRest(b, c);
      FitsUnder(Rest(b), Rest(c), n - 1);
    }
  }

  lemma XRest(b: Poly)
    requires !Top(b)
    ensures X(Rest(b)) == b
  {}

  // Shifting up is undone by multiplying.
  lemma {:induction false} XnShl(b: Poly, n: nat)
    requires Fits(b, n)
    ensures Xn(Shl(b, n), n) == b
    decreases n
  {
    hide X, Top, Rest;
    if n > 0 {
      XnShl(Rest(b), n - 1);
      XRest(b);
    }
  }

  // ------------------------------------------------------------ bytes

  function Of(b: bv8): Poly { Poly(b as bv32) }

  function LowByte(a: Poly): bv8 { (a.v & 0xff) as bv8 }

  // a << 24.
  function High(b: bv8): Poly { Poly(b as bv32 << 24) }

  lemma DownFits(a: Poly)
    ensures Fits(Down(a), 8)
  {
    hide Fits;
    DownUnder(a);
    MaskFits();
    FitsUnder(Down(a), Poly(0xff_ffff), 8);
  }

  lemma DownUnder(a: Poly)
    ensures Under(Down(a), Poly(0xff_ffff))
  {}

  lemma ByteUnder(b: bv8)
    ensures Under(Of(b), Poly(0xff))
  {}

  lemma MaskFits()
    ensures Fits(Poly(0xff_ffff), 8)
    ensures Fits(Poly(0xff), 24)
  {
    assert Fits(Poly(0xff_0000), 8);
    assert Fits(Poly(0xff00), 16);
  }

  lemma Parts(a: bv32)
    ensures ((a >> 8) << 8) ^ (((a & 0xff) as bv8) as bv32) == a
  {}

  lemma PartsOf(a: Poly)
    ensures a == Add(Byte(Down(a)), Of(LowByte(a)))
  {
    Parts(a.v);
  }

  // Multiplying by x^8: shift, and add what the lowest byte becomes.
  lemma EightSteps(a: Poly)
    ensures Xn(a, 8) == Add(Down(a), Xn(Of(LowByte(a)), 8))
  {
    hide Xn, Down, Of, LowByte, Byte, Add, Fits, Shl;
    PartsOf(a);
    XnAdds(Byte(Down(a)), Of(LowByte(a)), 8);
    ByteUp(Down(a));
    DownFits(a);
    XnShl(Down(a), 8);
  }

  lemma HighUp(b: bv8)
    ensures Byte(Byte(Byte(Of(b)))) == High(b)
  {}

  // A byte at the top is x^24 away.
  lemma HighIs(b: bv8)
    ensures Xn(High(b), 24) == Of(b)
  {
    hide Of, High, Fits, Xn, Shl, Byte;
    ByteUnder(b);
    MaskFits();
    FitsUnder(Of(b), Poly(0xff), 24);
    XnShl(Of(b), 24);
    ByteUp(Of(b));
    ByteUp(Byte(Of(b)));
    ByteUp(Byte(Byte(Of(b))));
    ShlPlus(Of(b), 8, 8);
    ShlPlus(Of(b), 16, 8);
    HighUp(b);
  }

  // ------------------------------------------------------------ indexing

  function Index(b: bv8): (i: nat)
    ensures i < 256
  {
    b as nat
  }

  function At(i: nat): bv8
    requires i < 256
  {
    i as bv8
  }

  lemma IndexAt(b: bv8)
    ensures At(Index(b)) == b
  {}

  lemma AtZero(i: nat)
    requires i < 256
    ensures Of(At(i)) == ZERO <==> i == 0
    ensures High(At(i)) == ZERO <==> i == 0
  {
  }

  // ------------------------------------------------------------ the tables

  // Braids and bytes in a word of the braided calculation.
  const N := 5
  const W := 8

  // crc_table[b] is the register b moved on by one byte.
  predicate ByteTable(t: seq<Poly>) {
    |t| == 256 && forall i :: 0 <= i < 256 ==> t[i] == Xn(Of(At(i)), 8)
  }

  // Byte k of a word moved past the rest of its word and the words of the other braids.
  ghost predicate BraidRow(t: array2<Poly>, k: nat)
    requires t.Length0 == W && t.Length1 == 256 && k < W
    reads t
  {
    forall i :: 0 <= i < 256 ==> t[k, i] == Xn(Of(At(i)), 8 * (N * W - k))
  }

  class Tables {
    const crc: array<Poly>
    const x2n: array<Poly>
    const braid: array2<Poly>

    ghost predicate Valid()
      reads crc, x2n, braid
    {
      && ByteTable(crc[..])
      && PowerTable(x2n[..])
      && braid.Length0 == W && braid.Length1 == 256
      && forall k :: 0 <= k < W ==> BraidRow(braid, k)
    }

    constructor ()
      ensures Valid()
    {
      crc := new Poly[256];
      x2n := new Poly[32];
      braid := new Poly[W, 256];
      new;
      FillBytes(crc);
      FillPowers(x2n);
      FillBraids(x2n, braid);
    }
  }

  method FillBytes(t: array<Poly>)
    requires t.Length == 256
    modifies t
    ensures ByteTable(t[..])
  {
    hide X, Of, At;
    for i := 0 to 256
      invariant forall q :: 0 <= q < i ==> t[q] == Xn(Of(At(q)), 8)
    {
      var p := Of(At(i));
      for j := 0 to 8
        invariant p == Xn(Of(At(i)), j)
      {
        p := X(p);
      }
      t[i] := p;
    }
  }

  lemma FirstPower()
    ensures Squared(0) == Poly(0x4000_0000)
  {
    assert Xn(ONE, 1) == X(ONE);
  }

  lemma SquaredNonzero(n: nat)
    ensures Squared(n) != ZERO
  {
    hide Squared, Power;
    SquaredIs(n);
    PowerNonzero(Pow2(n));
  }

  method FillPowers(x2n: array<Poly>)
    requires x2n.Length == 32
    modifies x2n
    ensures PowerTable(x2n[..])
  {
    hide Mul;
    var p := Poly(0x4000_0000);
    FirstPower();
    x2n[0] := p;
    for n := 1 to 32
      invariant p == Squared(n - 1)
      invariant forall i :: 0 <= i < n ==> x2n[i] == Squared(i)
    {
      SquaredNonzero(n - 1);
      p := MultModP(p, p);
      x2n[n] := p;
    }
  }

  // What braid stores: the byte shifted to the top of the register, times the power.
  lemma BraidEntry(b: bv8, k: nat)
    requires k < W
    ensures Mul(High(b), Power(8 * (N * W + 3 - k))) == Xn(Of(b), 8 * (N * W - k))
  {
    hide Mul, Power, Of, High, Xn;
    var m := 8 * (N * W + 3 - k);
    MulCommutes(High(b), Power(m));
    XnIsMul(High(b), m);
    HighIs(b);
    XnPlus(High(b), 24, m - 24);
  }

  lemma ZeroEntry(n: nat)
    ensures Xn(Of(At(0)), n) == ZERO
  {
    hide Xn;
    AtZero(0);
    XnZero(n);
  }

  method FillBraid(p: Poly, k: nat, braid: array2<Poly>)
    requires k < W && p == Power(8 * (N * W + 3 - k))
    requires braid.Length0 == W && braid.Length1 == 256
    modifies braid
    ensures BraidRow(braid, k)
    ensures forall j, i :: 0 <= j < W && j != k && 0 <= i < 256 ==> braid[j, i] == old(braid[j, i])
  {
    hide Mul, Power, Of, High, Xn, At;
    ZeroEntry(8 * (N * W - k));
    braid[k, 0] := ZERO;
    for i := 1 to 256
      invariant forall q :: 0 <= q < i ==> braid[k, q] == Xn(Of(At(q)), 8 * (N * W - k))
      invariant forall j, q :: 0 <= j < W && j != k && 0 <= q < 256 ==> braid[j, q] == old(braid[j, q])
    {
      AtZero(i);
      BraidEntry(At(i), k);
      var q := MultModP(High(At(i)), p);
      braid[k, i] := q;
    }
  }

  method FillBraids(x2n: array<Poly>, braid: array2<Poly>)
    requires PowerTable(x2n[..])
    requires braid.Length0 == W && braid.Length1 == 256
    modifies braid
    ensures forall k :: 0 <= k < W ==> BraidRow(braid, k)
  {
    hide Power;
    for k := 0 to W
      invariant forall j :: 0 <= j < k ==> BraidRow(braid, j)
    {
      // << 3
      var p := X2nModP(x2n, (N * W + 3 - k) * 8, 0);
      assert Pow2(0) == 1;
      label before:
      FillBraid(p, k, braid);
      forall j | 0 <= j < k ensures BraidRow(braid, j) {
        assert old@before(BraidRow(braid, j));
      }
    }
  }
}
