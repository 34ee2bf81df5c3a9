// Assigning code words to lengths: bi_reverse and gen_codes of deps/zlib/trees.c.

module TreeCodes {
  import opened Powers
  import opened Bits
  import opened Canonical

  // A tree element. As in the source each half is a union: fc holds the frequency
  // and later the code, dl holds the parent and later the length.
  datatype CtData = CtData(fc: nat, dl: nat)

  method BiReverse(code: nat, len: nat) returns (res: nat)
    requires 1 <= len <= 15
    ensures res == Rev(code, len)
  {
    var c, k := code, len;
    res := 0;
    ghost var i := 0;
    while k > 0
      invariant i == len - k && 0 <= k <= len
      invariant c == Hi(code, i)
      invariant res == 2 * Rev(code, i)
    {
      RevTop(code, i + 1);
      HiHi(code, i, 1);
      res := res + c % 2;   // an "or" in the source; the low bit of res is 0
      c, res := c / 2, res * 2;
      k := k - 1;
      i := i + 1;
    }
    res := res / 2;
  }

  // ------------------------------------------------------------ next_code

  lemma {:induction false} UnitsStep(lens: seq<bitlen>, n: nat, l: nat, k: nat)
    requires n <= |lens| && 0 < l
    ensures Units(lens, n, l, k + 1) == Units(lens, n, l, k) + (if k < n && lens[k] == l then 1 else 0)
  {
    if n > 0 { UnitsStep(lens, n - 1, l, k); }
  }

  lemma {:induction false} UnitsLevel(lens: seq<bitlen>, n: nat, l: nat)
    requires n <= |lens|
    ensures Units(lens, n, l + 1, 0) == 2 * (Units(lens, n, l, 0) + if l == 0 then 0 else Count(lens, n, l))
  {
    if n > 0 {
      UnitsLevel(lens, n - 1, l);
      var m := lens[n - 1];
      if 0 < m < l { assert Pow2(l + 1 - m) == 2 * Pow2(l - m); }
    }
  }

  lemma {:induction false} UnitsZero(lens: seq<bitlen>, n: nat)
    requires n <= |lens|
    ensures Units(lens, n, 0, 0) == 0
  {
    if n > 0 { UnitsZero(lens, n - 1); }
  }

  lemma UnitsFit(lens: seq<bitlen>, l: bitlen, k: nat)
    requires Kraft(lens) <= Pow2(15)
    ensures Units(lens, |lens|, l, k) <= Pow2(15)
  {
    var u, d := Units(lens, |lens|, l, k), Pow2(15 - l);
    BelowUnits(lens, |lens|, l, k);
    BelowMono(lens, |lens|, l, k, 16, 0);
    if u > Pow2(15) { MulMono(Pow2(15) + 1, u, d); MulMono(1, d, Pow2(15) + 1); }
  }

  method FirstCodes(ghost lens: seq<bitlen>, blCount: array<nat>) returns (nextCode: array<nat>)
    requires blCount.Length == 16 && blCount[0] == 0
    requires forall l :: 1 <= l <= 15 ==> blCount[l] == Count(lens, |lens|, l)
    requires Kraft(lens) <= Pow2(15)
    ensures fresh(nextCode) && nextCode.Length == 16
    ensures forall l :: 1 <= l <= 15 ==> nextCode[l] == Units(lens, |lens|, l, 0)
  {
    nextCode := new nat[16];
    var code := 0;
    var bits := 1;
    UnitsZero(lens, |lens|);
    assert Pow2(15) == 32768;
    while bits <= 15
      invariant 1 <= bits <= 16
      invariant code == Units(lens, |lens|, bits - 1, 0)
      invariant forall l :: 1 <= l < bits ==> nextCode[l] == Units(lens, |lens|, l, 0)
    {
      UnitsLevel(lens, |lens|, bits - 1);
      UnitsFit(lens, bits, 0);
      code := (code + blCount[bits - 1]) * 2;
      nextCode[bits] := code % 0x1_0000;
      bits := bits + 1;
    }
  }

  function LensOf(tree: seq<CtData>): (lens: seq<nat>)
    ensures |lens| == |tree|
    ensures forall i :: 0 <= i < |tree| ==> lens[i] == tree[i].dl
  {
    seq(|tree|, i requires 0 <= i < |tree| => tree[i].dl)
  }

  method GenCodes(tree: array<CtData>, maxCode: int, blCount: array<nat>, ghost lens: seq<bitlen>)
    requires 0 <= maxCode + 1 == |lens| <= tree.Length
    requires forall i :: 0 <= i < |lens| ==> lens[i] == tree[i].dl
    requires blCount.Length == 16 && blCount[0] == 0
    requires forall l :: 1 <= l <= 15 ==> blCount[l] == Count(lens, |lens|, l)
    requires Kraft(lens) <= Pow2(15)
    modifies tree
    ensures forall i :: 0 <= i < tree.Length && !Coded(lens, i) ==> tree[i] == old(tree[i])
    ensures forall i :: 0 <= i < tree.Length && Coded(lens, i) ==> tree[i] == CtData(Huff(lens, i), lens[i])
  {
    hide Kraft, Below;
    var nextCode := FirstCodes(lens, blCount);
    var n := 0;
    assert Pow2(15) == 32768;
    while n <= maxCode
      invariant 0 <= n <= maxCode + 1
      invariant forall l :: 1 <= l <= 15 ==> nextCode[l] == Units(lens, |lens|, l, n)
      invariant forall i :: 0 <= i < tree.Length && (n <= i || !Coded(lens, i)) ==> tree[i] == old(tree[i])
      invariant forall i :: 0 <= i < n && Coded(lens, i) ==> tree[i] == CtData(Huff(lens, i), lens[i])
    {
      var len := tree[n].dl;
      forall l | 1 <= l <= 15
        ensures Units(lens, |lens|, l, n + 1) == Units(lens, |lens|, l, n) + (if lens[n] == l then 1 else 0)
      {
        UnitsStep(lens, |lens|, l, n);
      }
      if len != 0 {
        UnitsFit(lens, len, n);
        var c := nextCode[len];
        nextCode[len] := (c + 1) % 0x1_0000;
        var r := BiReverse(c, len);
        tree[n] := tree[n].(fc := r);
      }
      n := n + 1;
    }
  }
}
