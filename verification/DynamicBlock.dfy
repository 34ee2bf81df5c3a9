// Writing a dynamic block (deps/zlib/trees.c:831-852, 1000-1063): trees built from the counts, the
// header, the two trees, the symbols and the end. What is written is 3 bits more than opt_len.

module DynamicBlock {
  import opened Powers
  import opened Bits
  import opened Canonical
  import opened TreeCodes
  import opened BlockDecoding
  import opened Tokens
  import opened CodeTables
  import opened BitOutput
  import opened CompressBlock
  import opened BitLengths
  import opened OptimalCodes
  import opened HuffmanTree
  import opened ForcedCodes
  import opened LengthRuns
  import opened TreeSending
  import opened BlTree
  import opened BlockLength

  // ------------------------------------------------------------ send_all_trees

  // The lengths of the code length code, in the order they are sent.
  function LengthsSent(bl: seq<CtData>, n: nat): (bs: seq<bool>)
    requires n <= 19 <= |bl|
    ensures |bs| == 3 * n
  {
    if n == 0 then [] else LengthsSent(bl, n - 1) + BitsOf(bl[BlOrder(n - 1)].dl, 3)
  }

  function HeaderBits(bl: seq<CtData>, lcodes: nat, dcodes: nat, blcodes: nat): (bs: seq<bool>)
    requires 257 <= lcodes && 1 <= dcodes && 4 <= blcodes <= 19 <= |bl|
    ensures |bs| == 14 + 3 * blcodes
  {
    ((BitsOf(lcodes - 257, 5) + BitsOf(dcodes - 1, 5)) + BitsOf(blcodes - 4, 4)) + LengthsSent(bl, blcodes)
  }

  // The order in which a reader of the format expects the lengths of the code length code.
  const EXPECTED: seq<nat> := [16, 17, 18, 0, 8, 7, 9, 6, 10, 5, 11, 4, 12, 3, 13, 2, 14, 1, 15]

  // After the three counts comes, in three bits each, the length of one symbol after the other.
  ghost predicate LengthsExpected(b: seq<bool>, bl: seq<CtData>, n: nat) {
    && n <= 19 <= |bl| && 14 + 3 * n <= |b|
    && forall i | 0 <= i < n :: Val(b[14 + 3 * i..17 + 3 * i]) == bl[EXPECTED[i]].dl
  }

  // Symbols after the first n have no word.
  ghost predicate NoneAfter(bl: seq<CtData>, n: nat) {
    19 <= |bl| && forall i | n <= i < 19 :: bl[EXPECTED[i]].dl == 0
  }

  lemma OrderExpected(i: nat)
    requires i < 19
    ensures EXPECTED[i] == BlOrder(i) < 19
  {}

  // The fields one by one.
  lemma HeaderFields(bl: seq<CtData>, lcodes: nat, dcodes: nat, blcodes: nat, b: seq<bool>)
    requires 257 <= lcodes <= 286 && 1 <= dcodes <= 30 && 4 <= blcodes <= 19 <= |bl| && forall i | 0 <= i < 19 :: bl[i].dl <= 7
    requires HeaderBits(bl, lcodes, dcodes, blcodes) <= b
    ensures |b| >= 14 + 3 * blcodes
    ensures Val(b[..5]) + 257 == lcodes && Val(b[5..10]) + 1 == dcodes && Val(b[10..14]) + 4 == blcodes
    ensures LengthsExpected(b, bl, blcodes)
  {
    hide Val, BitsOf, LengthsSent, BlOrder;
    FieldsFit();
    var x, y, z, t := BitsOf(lcodes - 257, 5), BitsOf(dcodes - 1, 5), BitsOf(blcodes - 4, 4), LengthsSent(bl, blcodes);
    FieldIs(lcodes - 257, 5);
    FieldIs(dcodes - 1, 5);
    FieldIs(blcodes - 4, 4);
    assert HeaderBits(bl, lcodes, dcodes, blcodes) == ((x + y) + z) + t;
    FourParts(x, y, z, t, b);
    forall i | 0 <= i < blcodes ensures Val(b[14 + 3 * i..17 + 3 * i]) == bl[EXPECTED[i]].dl {
      OrderExpected(i);
      LengthField(bl, blcodes, i);
      PartOf(b, t, 14, 3 * i, 3 * i + 3);
    }
  }

  lemma FieldIs(v: nat, n: nat)
    requires v < Pow2(n)
    ensures Val(BitsOf(v, n)) == v
  {
    ValBitsOf(v, n);
    LoSmall(v, n);
  }

  lemma FourParts(x: seq<bool>, y: seq<bool>, z: seq<bool>, t: seq<bool>, b: seq<bool>)
    requires |x| == |y| == 5 && |z| == 4 && ((x + y) + z) + t <= b
    ensures b[..5] == x && b[5..10] == y && b[10..14] == z && b[14..14 + |t|] == t
  {}

  lemma PartOf(b: seq<bool>, t: seq<bool>, k: nat, i: nat, j: nat)
    requires k + |t| <= |b| && b[k..k + |t|] == t && i <= j <= |t|
    ensures b[k + i..k + j] == t[i..j]
  {
    var x, y := b[k + i..k + j], t[i..j];
    forall q | 0 <= q < |y| ensures x[q] == y[q] {
      assert b[k..k + |t|][i + q] == t[i + q];
    }
  }

  lemma {:induction false} LengthField(bl: seq<CtData>, n: nat, i: nat)
    requires i < n <= 19 <= |bl| && forall j | 0 <= j < 19 :: bl[j].dl <= 7
    ensures Val(LengthsSent(bl, n)[3 * i..3 * i + 3]) == bl[BlOrder(i)].dl
  {
    hide Val, BitsOf, BlOrder;
    if i == n - 1 {
      FieldsFit();
      FieldIs(bl[BlOrder(i)].dl, 3);
      assert LengthsSent(bl, n)[3 * i..3 * i + 3] == BitsOf(bl[BlOrder(i)].dl, 3);
    } else {
      LengthField(bl, n - 1, i);
      assert LengthsSent(bl, n)[3 * i..3 * i + 3] == LengthsSent(bl, n - 1)[3 * i..3 * i + 3];
    }
  }

  method SendHeader(w: BitBuffer, bl: array<CtData>, lcodes: nat, dcodes: nat, blcodes: nat)
    requires w.Valid() && 257 <= lcodes <= 286 && 1 <= dcodes <= 30 && 4 <= blcodes <= 19 <= bl.Length
    requires forall i | 0 <= i < 19 :: bl[i].dl <= 7
    modifies w
    ensures w.Valid() && w.Written() == old(w.Written()) + HeaderBits(bl[..], lcodes, dcodes, blcodes)
  {
    hide BitBuffer.Valid, BitBuffer.Written, BitsOf, BlOrder, LengthsSent;
    FieldsFit();
    ghost var w0 := w.Written();
    w.SendBits(lcodes - 257, 5);
    w.SendBits(dcodes - 1, 5);
    w.SendBits(blcodes - 4, 4);
    ghost var fields := (BitsOf(lcodes - 257, 5) + BitsOf(dcodes - 1, 5)) + BitsOf(blcodes - 4, 4);
    Assoc(w0, BitsOf(lcodes - 257, 5), BitsOf(dcodes - 1, 5));
    Assoc(w0, BitsOf(lcodes - 257, 5) + BitsOf(dcodes - 1, 5), BitsOf(blcodes - 4, 4));
    NoneSent(bl[..], w0 + fields);
    var rank := 0;
    while rank < blcodes
      invariant 0 <= rank <= blcodes && w.Valid() && w.Written() == (w0 + fields) + LengthsSent(bl[..], rank)
    {
      w.SendBits(bl[BlOrder(rank)].dl, 3);
      Assoc(w0 + fields, LengthsSent(bl[..], rank), BitsOf(bl[BlOrder(rank)].dl, 3));
      OneSent(bl[..], rank);
      rank := rank + 1;
    }
    Assoc(w0, fields, LengthsSent(bl[..], blcodes));
  }

  lemma FieldsFit()
    ensures Pow2(3) == 8 && Pow2(4) == 16 && Pow2(5) == 32
  {}

  lemma NoneSent(bl: seq<CtData>, w: seq<bool>)
    requires 19 <= |bl|
    ensures w + LengthsSent(bl, 0) == w
  {}

  lemma OneSent(bl: seq<CtData>, n: nat)
    requires n < 19 <= |bl|
    ensures LengthsSent(bl, n + 1) == LengthsSent(bl, n) + BitsOf(bl[BlOrder(n)].dl, 3)
  {}

  // All that describes the codes of a block.
  ghost function TreesBits(bl: seq<CtData>, llens: seq<bitlen>, dlens: seq<bitlen>, clens: seq<bitlen>, blcodes: nat): seq<bool>
    requires 257 <= |llens| && 1 <= |dlens| && 4 <= blcodes <= 19 <= |bl|
    requires Sendable(clens, RunsOf(llens)) && Sendable(clens, RunsOf(dlens))
  {
    HeaderBits(bl, |llens|, |dlens|, blcodes) + (RunsBits(clens, RunsOf(llens)) + RunsBits(clens, RunsOf(dlens)))
  }

  method SendAllTrees(w: BitBuffer, ltree: array<CtData>, dtree: array<CtData>, bl: array<CtData>, lcodes: nat, dcodes: nat,
                      blcodes: nat, ghost llens: seq<bitlen>, ghost dlens: seq<bitlen>, ghost clens: seq<bitlen>)
    requires w.Valid() && 257 <= lcodes == |llens| <= 286 && 1 <= dcodes == |dlens| <= 30 && 4 <= blcodes <= 19 <= bl.Length
    requires Guarded(ltree[..], llens) && Guarded(dtree[..], dlens) && TreeSending.Codes(bl[..], clens)
    requires forall i | 0 <= i < 19 :: bl[i].dl <= 7
    requires Sendable(clens, RunsOf(llens)) && Sendable(clens, RunsOf(dlens))
    modifies w
    ensures w.Valid() && w.Written() == old(w.Written()) + TreesBits(bl[..], llens, dlens, clens, blcodes)
    ensures var b := w.Written()[|old(w.Written())|..];
      && |b| >= 14 && Val(b[..5]) + 257 == |llens| && Val(b[5..10]) + 1 == |dlens| && Val(b[10..14]) + 4 == blcodes
      && LengthsExpected(b, bl[..], blcodes)
  {
    hide BitBuffer.Valid, BitBuffer.Written, HeaderBits, RunsBits, RunsOf, Sendable, Guarded, TreeSending.Codes, Val, LengthsExpected;
    ghost var w0 := w.Written();
    SendHeader(w, bl, lcodes, dcodes, blcodes);
    SendTree(w, ltree, lcodes - 1, bl, llens, clens);
    SendTree(w, dtree, dcodes - 1, bl, dlens, clens);
    ghost var h, a, b := HeaderBits(bl[..], lcodes, dcodes, blcodes), RunsBits(clens, RunsOf(llens)), RunsBits(clens, RunsOf(dlens));
    Assoc(w0 + h, a, b);
    Assoc(w0, h, a + b);
    Appended(w0, h + (a + b));
    HeaderFields(bl[..], lcodes, dcodes, blcodes, h + (a + b));
  }

  lemma Appended(a: seq<bool>, b: seq<bool>)
    ensures (a + b)[|a|..] == b
  {}

  // ------------------------------------------------------------ the trees of a block

  // The counts of a block's symbols, as the trees hold them.
  ghost predicate Counted(t: Tables, ts: seq<Token>, ltree: seq<CtData>, dtree: seq<CtData>)
    requires Ready(t) && AllOk(ts)
  {
    && L_CODES <= |ltree| && D_CODES <= |dtree|
    && (forall i | 0 <= i < L_CODES :: ltree[i].fc == LUses(t, ts)[i])
    && forall i | 0 <= i < D_CODES :: dtree[i].fc == DUses(t, ts)[i]
  }

  // What build_tree made of the counts: a word for every symbol, and the bill of exactly those.
  lemma TreeSettled(desc: TreeLengths.Desc, uses: seq<nat>, freq0: seq<nat>, forced: seq<nat>, freq: seq<nat>, lens: seq<bitlen>,
                    maxCode: nat, tree: seq<CtData>, tooDeep: bool)
    requires 3 <= desc.elems == |uses| <= |freq0| && maxCode < desc.elems && |lens| == maxCode + 1
    requires forall i | 0 <= i < desc.elems :: freq0[i] == uses[i]
    requires freq == Forced(freq0, forced)[..maxCode + 1] && Built(desc, tree, freq, lens, maxCode, tooDeep)
    requires forall i | maxCode < i < desc.elems :: Forced(freq0, forced)[i] == 0
    requires FewForced(freq0, forced) && |forced| == (var m := |Occurring(freq0, desc.elems)|; if m < 2 then 2 - m else 0)
    requires forall i | 0 <= i <= 2 :: TreeLengths.ExtraOf(desc, i) == 0
    ensures HasWords(uses, lens) && TreeHolds(tree, lens) && Kraft(lens) == Pow2(15)
    ensures BillTotal(desc, freq, lens, maxCode + 1) == BillTotal(desc, uses, lens, desc.elems) + |forced|
  {
    hide BillTotal, Forced, Kraft, Pow2, Occurring, FewForced, Built, HasWords, TreeHolds, TreeLengths.ExtraOf;
    BuiltFacts(desc, tree, freq, lens, maxCode, tooDeep);
    BillSettled(desc, uses, freq0, forced, freq, lens, maxCode);
    WordsForAll(uses, freq0, forced, freq, lens, maxCode);
  }

  lemma BillSettled(desc: TreeLengths.Desc, uses: seq<nat>, freq0: seq<nat>, forced: seq<nat>, freq: seq<nat>, lens: seq<bitlen>,
                    maxCode: nat)
    requires 3 <= desc.elems == |uses| <= |freq0| && maxCode < desc.elems && |lens| == |freq| == maxCode + 1
    requires forall i | 0 <= i < desc.elems :: freq0[i] == uses[i]
    requires freq == Forced(freq0, forced)[..maxCode + 1]
    requires forall i | maxCode < i < desc.elems :: Forced(freq0, forced)[i] == 0
    requires FewForced(freq0, forced) && |forced| == (var m := |Occurring(freq0, desc.elems)|; if m < 2 then 2 - m else 0)
    requires Kraft(lens) == Pow2(15) && forall i | 0 <= i < |lens| :: lens[i] > 0 <==> freq[i] > 0
    requires forall i | 0 <= i <= 2 :: TreeLengths.ExtraOf(desc, i) == 0
    ensures BillTotal(desc, freq, lens, maxCode + 1) == BillTotal(desc, uses, lens, desc.elems) + |forced|
  {
    hide BillTotal, Forced, Kraft, Pow2, Occurring, FewForced, TreeLengths.ExtraOf;
    ForcedFree(desc, freq0, forced, freq, lens, maxCode);
    BillSame(desc, freq0, uses, lens, desc.elems);
  }

  lemma BuiltFacts(desc: TreeLengths.Desc, tree: seq<CtData>, freq: seq<nat>, lens: seq<bitlen>, maxCode: nat, tooDeep: bool)
    requires Built(desc, tree, freq, lens, maxCode, tooDeep)
    ensures |lens| == |freq| == maxCode + 1 && Kraft(lens) == Pow2(15) && TreeHolds(tree, lens)
    ensures forall i | 0 <= i < |lens| :: lens[i] > 0 <==> freq[i] > 0
  {
    hide Kraft, Pow2, Huff, Cheapest, RarerLens;
  }

  lemma WordsForAll(uses: seq<nat>, freq0: seq<nat>, forced: seq<nat>, freq: seq<nat>, lens: seq<bitlen>, maxCode: nat)
    requires |uses| <= |freq0| && maxCode < |uses| && |lens| == maxCode + 1 && freq == Forced(freq0, forced)[..maxCode + 1]
    requires forall i | 0 <= i < |uses| :: freq0[i] == uses[i]
    requires forall i | maxCode < i < |uses| :: Forced(freq0, forced)[i] == 0
    requires forall i | 0 <= i < |lens| :: lens[i] > 0 <==> freq[i] > 0
    ensures HasWords(uses, lens)
  {
    hide Forced;
    forall s | 0 <= s < |uses| && uses[s] > 0 ensures Coded(lens, s) {
      ForcedStays(freq0, forced, s);
      if s <= maxCode { assert freq[s] == Forced(freq0, forced)[s]; }
    }
  }

  // Constructs the literal and distance trees.
  method BuildBoth(s: TreeBuilder, ltree: array<CtData>, dtree: array<CtData>, t: Tables, ghost ts: seq<Token>)
    returns (lmax: nat, dmax: nat, ghost p: Codes)
    requires s.Sizes() && Ready(t) && AllOk(ts) && ltree != dtree && ltree.Length == HEAP_SIZE && dtree.Length == 61
    requires Counted(t, ts, ltree[..], dtree[..])
    modifies s, s.heap, s.depth, s.blCount, ltree, dtree
    ensures lmax + 1 == |p.llens| <= L_CODES && dmax + 1 == |p.dlens| <= D_CODES
    ensures TreeHolds(ltree[..], p.llens) && TreeHolds(dtree[..], p.dlens)
    ensures (forall i | 0 <= i < |p.llens| :: ltree[i].dl == p.llens[i]) && forall i | 0 <= i < |p.dlens| :: dtree[i].dl == p.dlens[i]
    ensures Kraft(p.llens) == Pow2(15) == Kraft(p.dlens) && HasWords(LUses(t, ts), p.llens) && HasWords(DUses(t, ts), p.dlens)
    ensures s.optLen == old(s.optLen) + BillTotal(LDesc(), LUses(t, ts), p.llens, L_CODES)
                        + BillTotal(DDesc(), DUses(t, ts), p.dlens, D_CODES)
  {
    hide Ready, LDesc, DDesc, LUses, DUses, ValidDesc, Forced, FewForced, Occurring, Merged, OverLimit, Built, BillTotal, StaticTotal,
         StaticSum, TreeHolds, HasWords, Kraft, Pow2, TreeLengths.ExtraOf, TreeBuilder.Sizes;
    DescsOk();
    ghost var l0, d0 := FreqOf(ltree[..]), FreqOf(dtree[..]);
    ghost var freq, forced, weights, merges, llens, dlens;
    lmax, llens, freq, forced, weights, merges := BuildTree(s, ltree, LDesc());
    TreeSettled(LDesc(), LUses(t, ts), l0, forced, freq, llens, lmax, ltree[..], OverLimit(LDesc(), Forced(l0, forced), merges));
    BuiltLens(LDesc(), ltree[..], freq, llens, lmax, OverLimit(LDesc(), Forced(l0, forced), merges));
    dmax, dlens, freq, forced, weights, merges := BuildTree(s, dtree, DDesc());
    TreeSettled(DDesc(), DUses(t, ts), d0, forced, freq, dlens, dmax, dtree[..], OverLimit(DDesc(), Forced(d0, forced), merges));
    BuiltLens(DDesc(), dtree[..], freq, dlens, dmax, OverLimit(DDesc(), Forced(d0, forced), merges));
    p := Codes(llens, dlens);
  }

  lemma BuiltLens(desc: TreeLengths.Desc, tree: seq<CtData>, freq: seq<nat>, lens: seq<bitlen>, maxCode: int, tooDeep: bool)
    requires Built(desc, tree, freq, lens, maxCode, tooDeep)
    ensures |lens| <= |tree| && forall i | 0 <= i < |lens| :: lens[i] == tree[i].dl
  {}

  // ------------------------------------------------------------ the whole block

  lemma EndHasWord(t: Tables, ts: seq<Token>, p: Codes)
    requires Ready(t) && AllOk(ts) && HasWords(LUses(t, ts), p.llens)
    ensures Coded(p.llens, END_BLOCK) && 257 <= |p.llens|
  {
    EndCounted(t, ts);
  }

  // The guard is set after the last length; the words stay.
  lemma StillHolds(tree: seq<CtData>, tree': seq<CtData>, lens: seq<bitlen>)
    requires TreeHolds(tree, lens) && |tree'| == |tree| && forall i | 0 <= i < |tree| && i != |lens| :: tree'[i] == tree[i]
    ensures TreeHolds(tree', lens)
  {}

  // The trees of a block and of their own lengths: opt_len is the length of the block.
  method BuildAll(s: TreeBuilder, ltree: array<CtData>, dtree: array<CtData>, bl: array<CtData>, t: Tables, ghost ts: seq<Token>)
    returns (lmax: nat, dmax: nat, maxBlindex: nat, ghost p: Codes, ghost clens: seq<bitlen>)
    requires s.Sizes() && Ready(t) && AllOk(ts) && ltree != dtree && ltree != bl && dtree != bl
    requires ltree.Length == HEAP_SIZE && dtree.Length == 61 && bl.Length == 39 && Counted(t, ts, ltree[..], dtree[..])
    requires forall i | 0 <= i < 19 :: bl[i].fc == 0
    modifies s, s.heap, s.depth, s.blCount, ltree, dtree, bl
    ensures 257 <= lmax + 1 == |p.llens| <= L_CODES && dmax + 1 == |p.dlens| <= D_CODES && 4 <= maxBlindex < 19
    ensures TreeHolds(ltree[..], p.llens) && TreeHolds(dtree[..], p.dlens) && Guarded(ltree[..], p.llens) && Guarded(dtree[..], p.dlens)
    ensures Kraft(clens) == Pow2(15) && TreeSending.Codes(bl[..], clens) && LastSent(bl[..], maxBlindex)
    ensures |clens| <= 19 && forall i | 0 <= i < 19 :: bl[i].dl == (if i < |clens| then clens[i] else 0) <= 7
    ensures Sendable(clens, RunsOf(p.llens)) && Sendable(clens, RunsOf(p.dlens))
    ensures Kraft(p.llens) == Pow2(15) == Kraft(p.dlens) && AllEncodable(t, p, ts) && Coded(p.llens, END_BLOCK)
    ensures s.optLen == old(s.optLen) + |TreesBits(bl[..], p.llens, p.dlens, clens, maxBlindex + 1)|
                        + |TokensBits(t, p, ts)| + |CodeBits(p.llens, END_BLOCK)|
  {
    hide Ready, LUses, DUses, LDesc, DDesc, BillTotal, TreeHolds, HasWords, Kraft, Pow2, TreeBuilder.Sizes, Guarded, TreeSending.Codes,
         Sendable, RunsOf, RunsBits, AllEncodable, TokensBits, HeaderBits, BlOrder;
    lmax, dmax, p := BuildBoth(s, ltree, dtree, t, ts);
    EndHasWord(t, ts, p);
    AllCovered(t, p, ts);
    TokensLength(t, p, ts);
    ghost var l, d := ltree[..], dtree[..];
    assert p.llens[END_BLOCK] > 0;
    maxBlindex, clens := BuildBlTree(s, ltree, lmax, dtree, dmax, bl, p.llens, p.dlens);
    StillHolds(l, ltree[..], p.llens);
    StillHolds(d, dtree[..], p.dlens);
  }

  lemma NoneLater(bl: seq<CtData>, last: nat)
    requires last < 19 <= |bl| && LastSent(bl, last)
    ensures NoneAfter(bl, last + 1)
  {
    hide BlOrder;
    forall i | last + 1 <= i < 19 ensures bl[EXPECTED[i]].dl == 0 {
      OrderExpected(i);
    }
  }

  // What a block that is written leaves: codes for all of its tokens, and a code for their lengths.
  ghost predicate Described(bl: seq<CtData>, t: Tables, p: Codes, clens: seq<bitlen>, blcodes: nat, ts: seq<Token>) {
    && 257 <= |p.llens| <= 286 && 1 <= |p.dlens| <= 30 && 4 <= blcodes <= 19 <= |bl| && |clens| <= 19
    && Ready(t) && AllEncodable(t, p, ts) && Coded(p.llens, END_BLOCK)
    && Sendable(clens, RunsOf(p.llens)) && Sendable(clens, RunsOf(p.dlens))
    && (forall i | 0 <= i < 19 :: bl[i].dl == (if i < |clens| then clens[i] else 0) <= 7)
    && NoneAfter(bl, blcodes) && Kraft(clens) == Pow2(15) == Kraft(p.llens) == Kraft(p.dlens)
  }

  // The bits of the block.
  ghost function BlockBits(bl: seq<CtData>, t: Tables, p: Codes, clens: seq<bitlen>, blcodes: nat, last: bool, ts: seq<Token>): seq<bool>
    requires Described(bl, t, p, clens, blcodes, ts)
  {
    BitsOf(if last then 5 else 4, 3) + TreesBits(bl, p.llens, p.dlens, clens, blcodes) + (TokensBits(t, p, ts) + CodeBits(p.llens, END_BLOCK))
  }

  // A dynamic block from its counts and its symbol buffer: the bits written are the three of its
  // type and exactly opt_len more, and a decoder can read them.
  method FlushDynamic(w: BitBuffer, s: TreeBuilder, ltree: array<CtData>, dtree: array<CtData>, bl: array<CtData>, t: Tables,
                      symBuf: seq<byte>, last: bool)
    returns (ghost p: Codes, ghost clens: seq<bitlen>, ghost blcodes: nat)
    requires w.Valid() && s.Sizes() && s.optLen == 0 && Ready(t) && ltree != dtree && ltree != bl && dtree != bl
    requires |symBuf| % 3 == 0 && AllOk(SymbolsFrom(symBuf, 0)) && Counted(t, SymbolsFrom(symBuf, 0), ltree[..], dtree[..])
    requires ltree.Length == HEAP_SIZE && dtree.Length == 61 && bl.Length == 39 && forall i | 0 <= i < 19 :: bl[i].fc == 0
    modifies w, s, s.heap, s.depth, s.blCount, ltree, dtree, bl
    ensures w.Valid() && |w.Written()| == |old(w.Written())| + 3 + s.optLen
    ensures Described(bl[..], t, p, clens, blcodes, SymbolsFrom(symBuf, 0)) && TreeSending.Codes(bl[..], clens) && ValidCodes(p)
    ensures w.Written() == old(w.Written()) + BlockBits(bl[..], t, p, clens, blcodes, last, SymbolsFrom(symBuf, 0))
  {
    hide BitBuffer.Valid, BitBuffer.Written, Ready, SymbolsFrom, Counted, TreeHolds, Kraft, Pow2, TreeBuilder.Sizes, Guarded,
         TreeSending.Codes, Sendable, RunsOf, AllEncodable, TokensBits, TreesBits, BitsOf, AllOk, Val, LengthsExpected, NoneAfter,
         LastSent;
    ghost var ts := SymbolsFrom(symBuf, 0);
    FieldsFit();
    var lmax, dmax, maxBlindex;
    lmax, dmax, maxBlindex, p, clens := BuildAll(s, ltree, dtree, bl, t, ts);
    w.SendBits(if last then 5 else 4, 3);
    blcodes := maxBlindex + 1;
    NoneLater(bl[..], maxBlindex);
    SendAllTrees(w, ltree, dtree, bl, lmax + 1, dmax + 1, maxBlindex + 1, p.llens, p.dlens, clens);
    CompressBlock.CompressBlock(w, t, ltree[..], dtree[..], symBuf, p);
  }
}
