// build_bl_tree (deps/zlib/trees.c:799-826): the code for the code lengths, built from the
// symbols the two trees will be sent with.

module BlTree {
  import opened Powers
  import opened Canonical
  import opened TreeCodes
  import opened TreeLengths
  import opened OptimalCodes
  import opened ForcedCodes
  import opened BitLengths
  import opened HuffmanTree
  import opened LengthRuns
  import opened TreeSending

  const BL_CODES := 19

  function ExtraBlbits(): seq<nat> { [0, 0, 0, 0, 0, 0, 0, 0, 0, 0, 0, 0, 0, 0, 0, 0, 2, 3, 7] }

  function BlDesc(): Desc { Desc(19, 7, 0, ExtraBlbits(), []) }

  // The order in which the lengths of the code are sent: an index into bl_order.
  function BlOrder(i: nat): (s: nat)
    requires i < 19
    ensures s < 19
  {
    [16, 17, 18, 0, 8, 7, 9, 6, 10, 5, 11, 4, 12, 3, 13, 2, 14, 1, 15][i]
  }

  // A symbol that occurs in the runs was counted.
  lemma {:induction false} Occurs(rs: seq<Run>, i: nat)
    requires i < |rs|
    ensures Times(rs, SymbolOf(rs[i])) > 0
    decreases i
  {
    if i > 0 { Occurs(rs[1..], i - 1); }
  }

  lemma {:induction false} AllLegal(lens: seq<bitlen>, rs: seq<Run>, i: nat)
    requires AllFollow(lens, rs) && i < |rs|
    ensures Legal(rs[i])
    decreases i
  {
    if i > 0 { AllLegal(ExpandRun(lens, rs[0]), rs[1..], i - 1); }
  }

  lemma {:induction false} ForcedStays(freq: seq<nat>, forced: seq<nat>, s: nat)
    requires s < |freq| && freq[s] > 0
    ensures Forced(freq, forced)[s] > 0
    decreases |forced|
  {
    if forced != [] { ForcedStays(freq, forced[1..], s); }
  }

  // Every run to be sent has a code word.
  lemma RunsCoded(bl: seq<CtData>, lens: seq<bitlen>, other: seq<Run>, first: bool, freq: seq<nat>, forced: seq<nat>,
                  maxCode: int, clens: seq<bitlen>, tree: seq<CtData>, tooDeep: bool)
    requires |bl| >= 19 && forall s | 0 <= s < 19 ::
               bl[s].fc == if first then Times(RunsOf(lens) + other, s) else Times(other + RunsOf(lens), s)
    requires 0 <= maxCode < 19 && freq == Forced(FreqOf(bl), forced)[..maxCode + 1] && Built(BlDesc(), tree, freq, clens, maxCode, tooDeep)
    requires forall s | maxCode < s < 19 :: Forced(FreqOf(bl), forced)[s] == 0
    ensures Sendable(clens, RunsOf(lens))
  {
    hide Kraft, Huff, Forced, OptimalCodes.Cheapest;
    RunsExpand([], lens);
    var rs := RunsOf(lens);
    forall i | 0 <= i < |rs| ensures Legal(rs[i]) && Coded(clens, SymbolOf(rs[i])) {
      AllLegal([], rs, i);
      Occurs(rs, i);
      var s := SymbolOf(rs[i]);
      TimesConcat(rs, other, s);
      TimesConcat(other, rs, s);
      assert FreqOf(bl)[s] > 0;
      ForcedStays(FreqOf(bl), forced, s);
    }
  }

  // Lengths that are not all 0 need a code word for one that is not 0.
  lemma {:induction false} OnlyZeros(lens: seq<bitlen>, rs: seq<Run>)
    requires AllFollow(lens, rs) && (forall i | 0 <= i < |lens| :: lens[i] == 0)
    requires forall i | 0 <= i < |rs| :: rs[i].Plain? ==> rs[i].len == 0
    ensures forall i | 0 <= i < |ExpandRuns(lens, rs)| :: ExpandRuns(lens, rs)[i] == 0
    decreases |rs|
  {
    if rs != [] { OnlyZeros(ExpandRun(lens, rs[0]), rs[1..]); }
  }

  lemma SomeLength(lens: seq<bitlen>, i: nat, clens: seq<bitlen>) returns (l: nat)
    requires i < |lens| && lens[i] > 0 && Sendable(clens, RunsOf(lens))
    ensures 1 <= l <= 15 && Coded(clens, l)
  {
    RunsExpand([], lens);
    var rs := RunsOf(lens);
    assert [] + lens == lens;
    if forall j | 0 <= j < |rs| :: rs[j].Plain? ==> rs[j].len == 0 {
      OnlyZeros([], rs);
    }
    var j :| 0 <= j < |rs| && rs[j].Plain? && rs[j].len != 0;
    l := rs[j].len;
  }

  // Such a length comes late in bl_order.
  lemma LateInOrder(l: nat) returns (i: nat)
    requires 1 <= l <= 15
    ensures 4 <= i < 19 && BlOrder(i) == l
  {
    i := [0, 17, 15, 13, 11, 9, 7, 5, 4, 6, 8, 10, 12, 14, 16, 18][l];
  }

  lemma BlDescOk()
    ensures ValidDesc(BlDesc()) && BlDesc().elems == 19 && BlDesc().maxLength == 7
  {
    assert Pow2(4) == 16;
    assert Pow2(7) == 128;
  }

  lemma CodesFromBuilt(tree: seq<CtData>, freq: seq<nat>, clens: seq<bitlen>, maxCode: int, tooDeep: bool)
    requires Built(BlDesc(), tree, freq, clens, maxCode, tooDeep)
    ensures Codes(tree, clens) && Kraft(clens) == Pow2(15) && |clens| <= 19 && forall i | 0 <= i < |clens| :: clens[i] <= 7
    ensures forall i | 0 <= i < 19 :: |tree| >= 19 && tree[i].dl == if i < |clens| then clens[i] else 0
  {}

  // ------------------------------------------------------------ what the runs will cost

  // How often each symbol is sent.
  function RunUses(rs: seq<Run>): (f: seq<nat>)
    ensures |f| == 19 && forall s | 0 <= s < 19 :: f[s] == Times(rs, s)
  {
    seq(19, s requires 0 <= s < 19 => Times(rs, s))
  }

  lemma RunUsesMore(rs: seq<Run>)
    requires rs != []
    ensures var s := SymbolOf(rs[0]); var f := RunUses(rs[1..]); RunUses(rs) == f[s := f[s] + 1]
  {}

  lemma RunWidth(r: Run, clens: seq<bitlen>)
    requires Legal(r) && Coded(clens, SymbolOf(r))
    ensures |RunBits(clens, r)| == clens[SymbolOf(r)] + ExtraOf(BlDesc(), SymbolOf(r))
  {}

  lemma OneMoreBill(desc: Desc, f: nat, n: nat, len: nat)
    ensures Bill(desc, f + 1, n, len) == Bill(desc, f, n, len) + len + ExtraOf(desc, n)
  {}

  // The runs take the bits their symbols are billed for.
  lemma {:induction false} RunsLength(clens: seq<bitlen>, rs: seq<Run>)
    requires Sendable(clens, rs)
    ensures |RunsBits(clens, rs)| == BillTotal(BlDesc(), RunUses(rs), clens, 19)
    decreases |rs|
  {
    hide BillTotal, Bill, RunUses, RunBits, BlDesc, ExtraOf;
    if rs == [] {
      assert forall s | 0 <= s < 19 :: RunUses([])[s] == 0;
      BillTail(BlDesc(), RunUses([]), clens, 0, 19);
      NoBill(BlDesc(), RunUses([]), clens);
    } else {
      var s, f := SymbolOf(rs[0]), RunUses(rs[1..]);
      RunsLength(clens, rs[1..]);
      RunUsesMore(rs);
      BillUpdate(BlDesc(), f, clens, s, f[s] + 1, 19);
      OneMoreBill(BlDesc(), f[s], s, clens[s]);
      RunWidth(rs[0], clens);
    }
  }

  lemma NoBill(desc: Desc, freq: seq<nat>, lens: seq<nat>)
    ensures BillTotal(desc, freq, lens, 0) == 0
  {}

  // What building the code adds to the block's length: the bits of both lists of runs.
  lemma RunsBilled(bl2: seq<CtData>, a: seq<Run>, b: seq<Run>, freq: seq<nat>, forced: seq<nat>, maxCode: nat, clens: seq<bitlen>,
                   tree: seq<CtData>, tooDeep: bool)
    requires 19 <= |bl2| && forall s | 0 <= s < 19 :: bl2[s].fc == Times(a + b, s)
    requires maxCode < 19 && |clens| == maxCode + 1 && freq == Forced(FreqOf(bl2), forced)[..maxCode + 1]
    requires forall i | maxCode < i < 19 :: Forced(FreqOf(bl2), forced)[i] == 0
    requires FewForced(FreqOf(bl2), forced) && |forced| == (var m := |Occurring(FreqOf(bl2), 19)|; if m < 2 then 2 - m else 0)
    requires Built(BlDesc(), tree, freq, clens, maxCode, tooDeep)
    requires Sendable(clens, a) && Sendable(clens, b)
    ensures BillTotal(BlDesc(), freq, clens, maxCode + 1) == |RunsBits(clens, a)| + |RunsBits(clens, b)| + |forced|
  {
    hide BillTotal, Bill, Forced, Kraft, Pow2, Occurring, FewForced, Sendable, OptimalCodes.Cheapest;
    ForcedFree(BlDesc(), FreqOf(bl2), forced, freq, clens, maxCode);
    BillSame(BlDesc(), FreqOf(bl2), RunUses(a + b), clens, 19);
    BitsConcat(clens, a, b);
    RunsLength(clens, a + b);
  }

  // The last code in the order of sending that has a length.
  predicate LastSent(bl: seq<CtData>, i: nat)
    requires i < 19 <= |bl|
  {
    bl[BlOrder(i)].dl != 0 && forall j | i < j < 19 :: bl[BlOrder(j)].dl == 0
  }

  // Counts the runs of both trees, builds the code for them, and says how many of its
  // lengths must be sent: at least four, and all that are not 0.
  method BuildBlTree(s: TreeBuilder, ltree: array<CtData>, lmax: nat, dtree: array<CtData>, dmax: nat, bl: array<CtData>,
                     ghost llens: seq<bitlen>, ghost dlens: seq<bitlen>)
    returns (maxBlindex: nat, ghost clens: seq<bitlen>)
    requires s.Sizes() && ltree != dtree && ltree != bl && dtree != bl && bl.Length == 39
    requires lmax + 1 == |llens| < ltree.Length && forall i | 0 <= i < |llens| :: ltree[i].dl == llens[i]
    requires dmax + 1 == |dlens| < dtree.Length && forall i | 0 <= i < |dlens| :: dtree[i].dl == dlens[i]
    requires forall i | 0 <= i < 19 :: bl[i].fc == 0
    requires exists i | 0 <= i < |llens| :: llens[i] > 0
    modifies s, s.heap, s.depth, s.blCount, ltree, dtree, bl
    ensures Guarded(ltree[..], llens) && Guarded(dtree[..], dlens)
    ensures Codes(bl[..], clens) && Kraft(clens) == Pow2(15) && |clens| <= 19 && forall i | 0 <= i < |clens| :: clens[i] <= 7
    ensures forall i | 0 <= i < 19 :: bl[i].dl == (if i < |clens| then clens[i] else 0) <= 7
    ensures Sendable(clens, RunsOf(llens)) && Sendable(clens, RunsOf(dlens))
    ensures s.optLen == old(s.optLen) + |RunsBits(clens, RunsOf(llens))| + |RunsBits(clens, RunsOf(dlens))| + 3 * (maxBlindex + 1) + 14
    ensures forall i | 0 <= i < ltree.Length && i != |llens| :: ltree[i] == old(ltree[i])
    ensures forall i | 0 <= i < dtree.Length && i != |dlens| :: dtree[i] == old(dtree[i])
    ensures 4 <= maxBlindex < 19 && LastSent(bl[..], maxBlindex)
  {
    hide Sendable, Kraft, Pow2, Forced, Built, OverLimit, Merged, BlDesc, Codes, RunsOf, OptimalCodes.BillTotal,
        OptimalCodes.StaticTotal, StaticSum, ValidDesc, Guarded, Tallied, FewForced, RunsBits, FreqOf, Occurring,
        Huff;
    BlDescOk();
    ghost var bl0, a, b := bl[..], RunsOf(llens), RunsOf(dlens);
    ScanTree(ltree, lmax, bl, llens);
    ghost var bl1 := bl[..];
    ScanTree(dtree, dmax, bl, dlens);
    ghost var bl2 := bl[..];
    BothTallied(bl0, bl1, bl2, a, b);
    var maxCode;
    ghost var freq, forced, weights, merges;
    maxCode, clens, freq, forced, weights, merges := BuildTree(s, bl, BlDesc());
    ghost var deep := OverLimit(BlDesc(), Forced(FreqOf(bl2), forced), merges);
    RunsCoded(bl2, llens, b, true, freq, forced, maxCode, clens, bl[..], deep);
    RunsCoded(bl2, dlens, a, false, freq, forced, maxCode, clens, bl[..], deep);
    CodesFromBuilt(bl[..], freq, clens, maxCode, deep);
    RunsBilled(bl2, a, b, freq, forced, maxCode, clens, bl[..], deep);
    ghost var some :| 0 <= some < |llens| && llens[some] > 0;
    ghost var l := SomeLength(llens, some, clens);
    ghost var late := LateInOrder(l);
    maxBlindex := BL_CODES - 1;
    while maxBlindex >= 3
      invariant late <= maxBlindex < 19 && forall i | maxBlindex < i < 19 :: bl[BlOrder(i)].dl == 0
      decreases maxBlindex
    {
      if bl[BlOrder(maxBlindex)].dl != 0 { break; }
      maxBlindex := maxBlindex - 1;
    }
    s.optLen := s.optLen + 3 * (maxBlindex + 1) + 5 + 5 + 4;
  }

  lemma BothTallied(bl0: seq<CtData>, bl1: seq<CtData>, bl2: seq<CtData>, a: seq<Run>, b: seq<Run>)
    requires Tallied(bl1, bl0, a) && Tallied(bl2, bl1, b) && forall i | 0 <= i < 19 :: bl0[i].fc == 0
    ensures |bl2| >= 19 && forall s | 0 <= s < 19 :: bl2[s].fc == Times(a + b, s)
  {
    forall s | 0 <= s < 19 ensures bl2[s].fc == Times(a + b, s) {
      TimesConcat(a, b, s);
    }
  }
}
