// The overflow loop of gen_bitlen (deps/zlib/trees.c:588-606): leaves that are too deep are
// moved up by lengthening shorter ones, one unit of the Kraft sum at a time.

module LengthLimit {
  import opened Powers
  import opened HuffmanMerges
  import opened TreeLengths

  // ------------------------------------------------------------ counts by length

  // The code space taken by the leaves of lengths up to c.
  function LevelSum(counts: seq<nat>, c: nat): nat
    requires c < |counts| == 16
  {
    (if c == 0 then 0 else LevelSum(counts, c - 1)) + counts[c] * Pow2(15 - c)
  }

  function Total(counts: seq<nat>, c: nat): nat
    requires c < |counts|
  {
    (if c == 0 then 0 else Total(counts, c - 1)) + counts[c]
  }

  lemma LeafUnits(desc: Desc, dl: seq<nat>, c: nat, k: nat)
    requires c <= 15 && k < |dl|
    ensures k < desc.elems ==>
      UnitOf(dl[k], c) == (if c == 0 then 0 else UnitOf(dl[k], c - 1)) + LeafAt(desc, dl, c, k) * Pow2(15 - c)
  {}

  lemma {:induction false} LevelUp(desc: Desc, s: set<nat>, dl: seq<nat>, c: nat)
    requires c <= 15 && Symbols(s, desc.elems)
    ensures Over(s, Spaces(dl, c)) ==
            (if c == 0 then 0 else Over(s, Spaces(dl, c - 1))) + Over(s, Leaves(desc, dl, c)) * Pow2(15 - c)
    decreases |dl|
  {
    if dl != [] {
      hide Pow2, LeafAt;
      var e, k := dl[..|dl| - 1], |dl| - 1;
      LevelUp(desc, s, e, c);
      LeafUnits(desc, dl, c, k);
      assert Spaces(dl, c)[..k] == Spaces(e, c);
      assert Leaves(desc, dl, c)[..k] == Leaves(desc, e, c);
      if c > 0 { assert Spaces(dl, c - 1)[..k] == Spaces(e, c - 1); }
      MulAdd(Over(s, Leaves(desc, e, c)), if k in s then LeafAt(desc, dl, c, k) else 0, Pow2(15 - c));
    }
  }

  lemma {:induction false} LevelsAre(desc: Desc, p: Pass, s: set<nat>, c: nat)
    requires c <= 15 && Symbols(s, desc.elems) && Counted(desc, p, s)
    ensures LevelSum(p.counts, c) == Over(s, Spaces(p.dl, c))
    decreases c
  {
    LevelUp(desc, s, p.dl, c);
    if c > 0 { LevelsAre(desc, p, s, c - 1); }
  }

  // Nodes of length at most c.
  function Short(desc: Desc, dl: seq<nat>, c: nat): (g: seq<int>)
    ensures |g| == |dl| && forall i | 0 <= i < |dl| :: g[i] == if i < desc.elems && dl[i] <= c then 1 else 0
  {
    seq(|dl|, i requires 0 <= i < |dl| => if i < desc.elems && dl[i] <= c then 1 else 0)
  }

  lemma {:induction false} ShortUp(desc: Desc, s: set<nat>, dl: seq<nat>, c: nat)
    ensures Over(s, Short(desc, dl, c)) ==
            (if c == 0 then 0 else Over(s, Short(desc, dl, c - 1))) + Over(s, Leaves(desc, dl, c))
    decreases |dl|
  {
    if dl != [] {
      var e, k := dl[..|dl| - 1], |dl| - 1;
      ShortUp(desc, s, e, c);
      assert Short(desc, dl, c)[..k] == Short(desc, e, c);
      assert Leaves(desc, dl, c)[..k] == Leaves(desc, e, c);
      if c > 0 { assert Short(desc, dl, c - 1)[..k] == Short(desc, e, c - 1); }
    }
  }

  lemma {:induction false} TotalIs(desc: Desc, p: Pass, s: set<nat>, c: nat)
    requires c <= 15 && Counted(desc, p, s)
    ensures Total(p.counts, c) == Over(s, Short(desc, p.dl, c))
    decreases c
  {
    ShortUp(desc, s, p.dl, c);
    if c > 0 { TotalIs(desc, p, s, c - 1); }
  }

  lemma {:induction false} OverOnes(s: set<nat>, g: seq<int>)
    requires forall x | x in s :: x < |g| && g[x] == 1
    ensures Over(s, g) == |s|
    decreases |s|
  {
    if s == {} {
      OverNone(g);
    } else {
      var x :| x in s;
      OverOnes(s - {x}, g);
      OverAdd(s - {x}, g, x);
      assert s - {x} + {x} == s;
    }
  }

  // All leaves are counted.
  lemma AllCounted(desc: Desc, p: Pass, s: set<nat>)
    requires 1 <= desc.maxLength <= 15 && Symbols(s, desc.elems) && InRange(desc, p.dl, s) && Counted(desc, p, s)
    ensures Total(p.counts, desc.maxLength) == |s|
  {
    TotalIs(desc, p, s, desc.maxLength);
    OverOnes(s, Short(desc, p.dl, desc.maxLength));
  }

  // ------------------------------------------------------------ one move

  ghost predicate Repairable(counts: seq<nat>, max: nat, n: nat, overflow: int) {
    && |counts| == 16 && 1 <= max <= 15 && counts[0] == 0 && n <= Pow2(max)
    && 0 <= overflow && overflow % 2 == 0
    && LevelSum(counts, max) == 32768 + (overflow / 2) * Pow2(15 - max)
    && LevelSum(counts, max - 1) + Pow2(15 - max) <= 32768
    && Total(counts, max) == n
    && forall b | max < b < 16 :: counts[b] == 0
  }

  lemma {:induction false} OverZero(s: set<nat>, g: seq<int>)
    requires forall x | x in s && x < |g| :: g[x] == 0
    ensures Over(s, g) == 0
  {
    if g != [] { OverZero(s, g[..|g| - 1]); }
  }

  // What the first pass leaves can be repaired.
  lemma PassRepairable(desc: Desc, p: Pass, s: set<nat>)
    requires Symbols(s, desc.elems) && InRange(desc, p.dl, s) && Filled(desc, p, s) && Counted(desc, p, s)
    requires |s| <= Pow2(desc.maxLength) && p.overflow > 0
    ensures Repairable(p.counts, desc.maxLength, |s|, p.overflow)
  {
    hide Over, LevelSum, Total, Pow2;
    var max := desc.maxLength;
    LevelsAre(desc, p, s, max);
    LevelsAre(desc, p, s, max - 1);
    AllCounted(desc, p, s);
    OverZero(s, Leaves(desc, p.dl, 0));
    forall b | max < b < 16 ensures p.counts[b] == 0 {
      OverZero(s, Leaves(desc, p.dl, b));
    }
  }

  lemma {:induction false} LevelUpdate(counts: seq<nat>, b: nat, v: nat, c: nat)
    requires b < |counts| == 16 && c <= 15
    ensures b <= c ==> LevelSum(counts[b := v], c) == LevelSum(counts, c) - counts[b] * Pow2(15 - b) + v * Pow2(15 - b)
    ensures c < b ==> LevelSum(counts[b := v], c) == LevelSum(counts, c)
    ensures b <= c ==> Total(counts[b := v], c) == Total(counts, c) - counts[b] + v
    ensures c < b ==> Total(counts[b := v], c) == Total(counts, c)
  {
    if c > 0 { LevelUpdate(counts, b, v, c - 1); }
  }

  lemma {:induction false} LevelsZero(counts: seq<nat>, c: nat)
    requires c < |counts| == 16 && forall b | 0 <= b <= c :: counts[b] == 0
    ensures LevelSum(counts, c) == 0 && Total(counts, c) == 0
  {
    if c > 0 { LevelsZero(counts, c - 1); }
  }

  // While the sum is over one there is a leaf above the limit, and one at the limit.
  lemma HasShorter(counts: seq<nat>, max: nat, n: nat, overflow: int)
    requires Repairable(counts, max, n, overflow) && overflow > 0
    ensures counts[max] > 0 && exists b :: 1 <= b < max && counts[b] > 0
  {
    hide LevelSum, Total, Pow2;
    var k, w := overflow / 2, Pow2(15 - max);
    TopLevel(counts, max);
    MulAdd(k, 1, w);
    MulCancel(k + 1, counts[max], w);
    if forall b :: 1 <= b < max ==> counts[b] == 0 {
      LevelsZero(counts, max - 1);
      NotAllAtLimit(counts[max], k, max);
    }
  }

  lemma NotAllAtLimit(c: nat, k: nat, max: nat)
    requires max <= 15 && c * Pow2(15 - max) == 32768 + k * Pow2(15 - max)
    ensures c >= Pow2(max) + k
  {
    Pow2Split(max, 15);
    assert Pow2(15) == 32768;
    hide Pow2;
    MulAdd(Pow2(max), k, Pow2(15 - max));
    MulCancel(Pow2(max) + k, c, Pow2(15 - max));
  }

  lemma TopLevel(counts: seq<nat>, c: nat)
    requires 1 <= c < |counts| == 16
    ensures LevelSum(counts, c) == LevelSum(counts, c - 1) + counts[c] * Pow2(15 - c)
    ensures Total(counts, c) == Total(counts, c - 1) + counts[c]
  {}

  function MoveLeaf(counts: seq<nat>, bits: nat, max: nat): (r: seq<nat>)
    requires bits + 1 <= max < |counts| && counts[bits] > 0 && counts[max] > 0
    ensures |r| == |counts|
  {
    var c := counts[bits := counts[bits] - 1];
    var d := c[bits + 1 := c[bits + 1] + 2];
    d[max := d[max] - 1]
  }

  lemma LevelAdd(counts: seq<nat>, b: nat, k: int, c: nat)
    requires b < |counts| == 16 && c <= 15 && counts[b] + k >= 0
    ensures b <= c ==> LevelSum(counts[b := counts[b] + k], c) == LevelSum(counts, c) + k * Pow2(15 - b)
    ensures c < b ==> LevelSum(counts[b := counts[b] + k], c) == LevelSum(counts, c)
    ensures b <= c ==> Total(counts[b := counts[b] + k], c) == Total(counts, c) + k
    ensures c < b ==> Total(counts[b := counts[b] + k], c) == Total(counts, c)
  {
    hide LevelSum, Total, Pow2;
    LevelUpdate(counts, b, counts[b] + k, c);
    MulAdd(counts[b], k, Pow2(15 - b));
  }

  lemma MoveLevels(counts: seq<nat>, bits: nat, max: nat, c: nat)
    requires |counts| == 16 && 1 <= bits < max <= 15 && counts[bits] > 0 && counts[max] > 0 && max - 1 <= c <= max
    ensures var r := MoveLeaf(counts, bits, max);
            && LevelSum(r, c) <= LevelSum(counts, c) && (c == max ==> LevelSum(r, c) == LevelSum(counts, c) - Pow2(15 - max))
            && (c == max ==> Total(r, c) == Total(counts, c))
  {
    hide LevelSum, Total;
    assert Pow2(15 - bits) == 2 * Pow2(15 - bits - 1);
    hide Pow2;
    var e := counts[bits := counts[bits] - 1];
    var d := e[bits + 1 := e[bits + 1] + 2];
    LevelAdd(counts, bits, -1, c);
    LevelAdd(e, bits + 1, 2, c);
    LevelAdd(d, max, -1, c);
  }

  // A leaf of length bits becomes two of the next, one of them taken from the limit.
  lemma MoveKeeps(counts: seq<nat>, bits: nat, max: nat, n: nat, overflow: int)
    requires Repairable(counts, max, n, overflow) && overflow > 0
    requires 1 <= bits < max && counts[bits] > 0 && counts[max] > 0
    ensures Repairable(MoveLeaf(counts, bits, max), max, n, overflow - 2)
  {
    hide LevelSum, Total, Pow2;
    MoveLevels(counts, bits, max, max);
    MoveLevels(counts, bits, max, max - 1);
    MulAdd(overflow / 2, -1, Pow2(15 - max));
  }

  // The loop: it finds a leaf to lengthen every time, and ends with a Kraft sum of one.
  method Repair(blCount: array<nat>, max: nat, ghost n: nat, overflow: nat)
    requires blCount.Length == 16 && Repairable(blCount[..], max, n, overflow) && overflow > 0
    modifies blCount
    ensures Repairable(blCount[..], max, n, 0)
  {
    hide Repairable, Pow2;
    var over: int := overflow;
    RepairRange(blCount[..], max, n, over);
    while true
      invariant Repairable(blCount[..], max, n, over) && over > 0 && over % 2 == 0
      decreases over
    {
      HasShorter(blCount[..], max, n, over);
      ghost var b :| 1 <= b < max && blCount[..][b] > 0;
      var bits := max - 1;
      while blCount[bits] == 0
        invariant b <= bits < max
        decreases bits
      {
        bits := bits - 1;
      }
      MoveKeeps(blCount[..], bits, max, n, over);
      ghost var counts := blCount[..];
      blCount[bits] := blCount[bits] - 1;
      blCount[bits + 1] := blCount[bits + 1] + 2;
      blCount[max] := blCount[max] - 1;
      assert blCount[..] == MoveLeaf(counts, bits, max);
      over := over - 2;
      if over <= 0 { break; }
    }
    RepairRange(blCount[..], max, n, over);
  }

  // In the end some leaf is at the limit.
  lemma LimitReached(counts: seq<nat>, max: nat, n: nat)
    requires Repairable(counts, max, n, 0)
    ensures counts[max] > 0
  {
    hide LevelSum;
    TopLevel(counts, max);
  }

  lemma RepairRange(counts: seq<nat>, max: nat, n: nat, overflow: int)
    requires Repairable(counts, max, n, overflow)
    ensures 1 <= max <= 15 && overflow >= 0 && overflow % 2 == 0
  {}
}
