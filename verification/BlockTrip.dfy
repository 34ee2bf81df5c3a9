// A dynamic block that was written is read back: the header gives the codes it was written with,
// and the tokens after it decode with them (deps/zlib/trees.c:831-853, 1000-1072;
// deps/zlib/inflate.c:827-1022).

module BlockTrip {
  import opened Powers
  import opened Bits
  import opened Canonical
  import opened TableLayout
  import opened InflateTable
  import opened TreeCodes
  import opened BlockDecoding
  import opened BitReader
  import EntryLookup
  import opened Tokens
  import opened CodeTables
  import opened BitOutput
  import opened CompressBlock
  import opened LengthRuns
  import TreeSending
  import opened CodeLengths
  import opened DynamicBlock
  import opened BlockHeader

  // ------------------------------------------------------------ zeros after the lengths of a code

  // The lengths of a code with a length for each of n symbols.
  function Padded(lens: seq<bitlen>, n: nat): (r: seq<bitlen>)
    ensures |r| == if |lens| < n then n else |lens|
    ensures forall i | 0 <= i < |r| :: r[i] == if i < |lens| then lens[i] else 0
  {
    lens + seq(if |lens| < n then n - |lens| else 0, _ => 0)
  }

  lemma {:induction false} PaddedUnits(lens: seq<bitlen>, r: seq<bitlen>, n: nat, l: nat, k: nat)
    requires |lens| <= n <= |r| && forall i | 0 <= i < |r| :: r[i] == if i < |lens| then lens[i] else 0
    ensures Units(r, n, l, k) == Units(lens, |lens|, l, k) && Below(r, n, l, k) == Below(lens, |lens|, l, k)
  {
    if n > |lens| { PaddedUnits(lens, r, n - 1, l, k); } else { SameUnits(lens, r, n, l, k); }
  }

  lemma {:induction false} SameUnits(lens: seq<bitlen>, r: seq<bitlen>, n: nat, l: nat, k: nat)
    requires n <= |lens| <= |r| && forall i | 0 <= i < n :: r[i] == lens[i]
    ensures Units(r, n, l, k) == Units(lens, n, l, k) && Below(r, n, l, k) == Below(lens, n, l, k)
  {
    if n > 0 { SameUnits(lens, r, n - 1, l, k); }
  }

  // It is the same code.
  lemma PaddedCode(lens: seq<bitlen>, n: nat)
    ensures Kraft(Padded(lens, n)) == Kraft(lens)
    ensures forall s: nat | s < |lens| :: CodeBits(Padded(lens, n), s) == CodeBits(lens, s)
    ensures forall s: nat :: Coded(Padded(lens, n), s) <==> Coded(lens, s)
  {
    var r := Padded(lens, n);
    PaddedUnits(lens, r, |r|, 16, 0);
    forall s: nat | s < |lens| ensures CodeBits(r, s) == CodeBits(lens, s) {
      PaddedUnits(lens, r, |r|, lens[s], s);
    }
  }

  lemma {:induction false} PaddedRuns(lens: seq<bitlen>, n: nat, rs: seq<Run>)
    requires TreeSending.Sendable(lens, rs)
    ensures TreeSending.Sendable(Padded(lens, n), rs) && TreeSending.RunsBits(Padded(lens, n), rs) == TreeSending.RunsBits(lens, rs)
    decreases |rs|
  {
    hide CodeBits, Padded;
    PaddedCode(lens, n);
    if rs != [] {
      assert Coded(lens, SymbolOf(rs[0]));
      PaddedRuns(lens, n, rs[1..]);
    }
  }

  // ------------------------------------------------------------ the lengths of the code length code

  function SentFor(bl: seq<CtData>, n: nat): (sent: seq<bitlen>)
    requires n <= 19 <= |bl| && forall i | 0 <= i < 19 :: bl[i].dl <= 7
    ensures |sent| == n
  {
    seq(n, i requires 0 <= i < n => SentAt(bl, i))
  }

  function SentAt(bl: seq<CtData>, i: nat): bitlen
    requires i < 19 <= |bl| && forall j | 0 <= j < 19 :: bl[j].dl <= 7
  {
    OrderExpected(i);
    bl[EXPECTED[i]].dl
  }

  lemma {:induction false} LengthsRun(c: HConf, b: seq<bool>, bl: seq<CtData>)
    requires c.mode == LENLENS && |c.sent| <= c.ncode <= 19 <= |bl| && (forall i | 0 <= i < 19 :: bl[i].dl <= 7)
    requires LengthsExpected(b, bl, c.ncode) && c.rest == b[14 + 3 * |c.sent|..] && c.sent == SentFor(bl, |c.sent|)
    ensures HRuns(c, c.(sent := SentFor(bl, c.ncode), rest := b[14 + 3 * c.ncode..]))
    decreases c.ncode - |c.sent|
  {
    hide HStep, HRuns, SentAt, Val;
    var i := |c.sent|;
    if i == c.ncode {
      HRunsZero(c);
    } else {
      LengthStep(c);
      HRunsStep(c);
      assert c.rest[..3] == b[14 + 3 * i..17 + 3 * i] && c.rest[3..] == b[14 + 3 * (i + 1)..];
      SentIs(bl, i);
      var d := HStep(c).value;
      assert d.sent == SentFor(bl, i + 1);
      LengthsRun(d, b, bl);
      HRunsTrans(c, d, c.(sent := SentFor(bl, c.ncode), rest := b[14 + 3 * c.ncode..]));
    }
  }

  lemma SentIs(bl: seq<CtData>, i: nat)
    requires i < 19 <= |bl| && forall j | 0 <= j < 19 :: bl[j].dl <= 7
    ensures SentAt(bl, i) == bl[EXPECTED[i]].dl
  {}

  // In their places they are the code they were sent for.
  lemma SentInPlace(bl: seq<CtData>, clens: seq<bitlen>, n: nat)
    requires n <= 19 <= |bl| && |clens| <= 19 && forall i | 0 <= i < 19 :: bl[i].dl == (if i < |clens| then clens[i] else 0) <= 7
    requires NoneAfter(bl, n)
    ensures InPlace(SentFor(bl, n)) == Padded(clens, 19)
  {
    hide InPlace, Padded, SentAt;
    var sent := SentFor(bl, n);
    PlacesAt(sent);
    SameOrder();
    forall s | 0 <= s < 19 ensures InPlace(sent)[s] == Padded(clens, 19)[s] {
      var i := OrderAll(s);
      if i < n { SentIs(bl, i); }
    }
  }

  lemma SameOrder()
    ensures ORDER == EXPECTED
  {}

  // ------------------------------------------------------------ the header

  lemma TreesParts(bl: seq<CtData>, llens: seq<bitlen>, dlens: seq<bitlen>, clens: seq<bitlen>, blcodes: nat, more: seq<bool>)
    requires 257 <= |llens| && 1 <= |dlens| && 4 <= blcodes <= 19 <= |bl|
    requires TreeSending.Sendable(clens, RunsOf(llens)) && TreeSending.Sendable(clens, RunsOf(dlens))
    ensures var b := TreesBits(bl, llens, dlens, clens, blcodes) + more;
      && |b| >= 14 + 3 * blcodes && HeaderBits(bl, |llens|, |dlens|, blcodes) <= b
      && b[14 + 3 * blcodes..] ==
         (TreeSending.RunsBits(clens, RunsOf(llens)) + TreeSending.RunsBits(clens, RunsOf(dlens))) + more
  {
    hide HeaderBits, TreeSending.RunsBits, RunsOf, TreeSending.Sendable;
    var h, t := HeaderBits(bl, |llens|, |dlens|, blcodes), TreeSending.RunsBits(clens, RunsOf(llens)) + TreeSending.RunsBits(clens, RunsOf(dlens));
    Assoc(h, t, more);
    Appended(h, t + more);
  }

  // From state TABLE on, what send_all_trees wrote gives the lengths of both codes.
  lemma HeaderReads(c: HConf, bl: seq<CtData>, llens: seq<bitlen>, dlens: seq<bitlen>, clens: seq<bitlen>, blcodes: nat, more: seq<bool>)
    returns (d: HConf)
    requires 257 <= |llens| <= 286 && 1 <= |dlens| <= 30 && 4 <= blcodes <= 19 <= |bl| && |clens| <= 19
    requires TreeSending.Sendable(clens, RunsOf(llens)) && TreeSending.Sendable(clens, RunsOf(dlens))
    requires forall i | 0 <= i < 19 :: bl[i].dl == (if i < |clens| then clens[i] else 0) <= 7
    requires NoneAfter(bl, blcodes) && Kraft(clens) == Pow2(15) == Kraft(llens) == Kraft(dlens) && llens[256] > 0
    requires c.mode == TABLE && c.rest == TreesBits(bl, llens, dlens, clens, blcodes) + more
    ensures HRuns(c, d) && d.mode == CODED && d.last == c.last && d.rest == more
    ensures d.nlen == |llens| && d.ndist == |dlens| && d.ncode == blcodes && d.lens == llens + dlens
    ensures InPlace(d.sent) == Padded(clens, 19)
  {
    hide HStep, HRuns, HeaderBits, TreesBits, RunsOf, TreeSending.Sendable, TreeSending.RunsBits, NoneAfter, LengthsExpected, Val, Kraft, Pow2,
         LenRuns, InPlace, Padded, SentFor, Acceptable, GoodCodes;
    var b := c.rest;
    TreesParts(bl, llens, dlens, clens, blcodes, more);
    HeaderFields(bl, |llens|, |dlens|, blcodes, b);
    TableStep(c);
    HRunsStep(c);
    var c1 := HStep(c).value;
    NothingSent(bl);
    LengthsRun(c1, b, bl);
    var c2 := c1.(sent := SentFor(bl, blcodes), rest := b[14 + 3 * blcodes..]);
    HRunsTrans(c, c1, c2);
    SentInPlace(bl, clens, blcodes);
    PaddedCode(clens, 19);
    FullAccepted(CODES, Padded(clens, 19));
    CodesStep(c2);
    HRunsStep(c2);
    var c3 := HStep(c2).value;
    HRunsTrans(c, c2, c3);
    PaddedRuns(clens, 19, RunsOf(llens));
    PaddedRuns(clens, 19, RunsOf(dlens));
    TreesRead(Padded(clens, 19), llens, dlens, more);
    LensRuns(c3, LenConf(false, llens + dlens, more));
    var c4 := c3.(lens := llens + dlens, rest := more);
    HRunsTrans(c, c3, c4);
    GoodBoth(llens, dlens);
    TablesStep(c4);
    HRunsStep(c4);
    d := HStep(c4).value;
    HRunsTrans(c, c4, d);
  }

  lemma NothingSent(bl: seq<CtData>)
    requires 19 <= |bl| && forall i | 0 <= i < 19 :: bl[i].dl <= 7
    ensures SentFor(bl, 0) == []
  {}

  lemma FullAccepted(kind: CodeType, lens: seq<bitlen>)
    requires Kraft(lens) == Pow2(15)
    ensures Acceptable(kind, lens)
  {}

  lemma GoodBoth(llens: seq<bitlen>, dlens: seq<bitlen>)
    requires 257 <= |llens| && llens[256] > 0 && Kraft(llens) == Pow2(15) == Kraft(dlens)
    ensures GoodCodes(llens + dlens, |llens|)
  {
    hide Kraft, Pow2;
    assert (llens + dlens)[..|llens|] == llens && (llens + dlens)[|llens|..] == dlens;
    FullAccepted(LENS, llens);
    FullAccepted(DISTS, dlens);
  }

  // ------------------------------------------------------------ the whole block

  lemma TypeBits(last: bool, more: seq<bool>)
    ensures var b := BitsOf(if last then 5 else 4, 3) + more;
      && |b| >= 3 && b[0] == last && Val(b[1..3]) == 2 && b[3..] == more
  {
    var v := if last then 5 else 4;
    assert BitsOf(v, 3) == [last, false, true];
    var b := BitsOf(v, 3) + more;
    assert b[1..3] == [false, true] && [false, true][1..] == [true] && [true][1..] == [];
  }

  // Every block that is written is read back, whatever follows it: its header gives the codes, and
  // decoding with them gives what the tokens stand for.
  lemma BlockReads(h: HConf, bl: seq<CtData>, t: Tables, p: Codes, clens: seq<bitlen>, blcodes: nat, last: bool, ts: seq<Token>,
                   more: seq<bool>, out: seq<byte>, seen: nat)
    returns (d: HConf, c: Conf)
    requires Described(bl, t, p, clens, blcodes, ts)
    requires h.mode == TYPEDO && h.rest == BlockBits(bl, t, p, clens, blcodes, last, ts) + more
    requires seen <= |out| && AllReach(out, ts) && WithinSight(out, seen, ts)
    ensures HRuns(h, d) && d.mode == CODED && d.last == last && d.nlen == |p.llens| && d.lens == p.llens + p.dlens
    ensures d.rest == (TokensBits(t, p, ts) + CodeBits(p.llens, END_BLOCK)) + more
    ensures Runs(p, Conf(LEN, 0, 0, 0, d.rest, out, seen), c) && c.mode == TYPE && c.rest == more && c.out == Expand(out, ts)
  {
    hide HRuns, BlockBits, TokensBits, CodeBits, Runs, TreeSending.Sendable, NoneAfter, AllEncodable, CodeTables.Ready, Kraft, Pow2, Expand, AllReach,
         WithinSight;
    d := HeaderOf(h, bl, t, p, clens, blcodes, last, ts, more);
    FullCodes(p);
    c := BlockRuns(t, p, Conf(LEN, 0, 0, 0, d.rest, out, seen), ts, more);
  }

  lemma Regroup(a: seq<bool>, b: seq<bool>, c: seq<bool>, d: seq<bool>)
    ensures (a + b + c) + d == a + (b + (c + d))
  {}

  lemma FullCodes(p: Codes)
    requires |p.llens| <= 286 && |p.dlens| <= 30 && Kraft(p.llens) == Pow2(15) == Kraft(p.dlens)
    ensures ValidCodes(p)
  {
    hide Kraft, Pow2;
  }

  // Where the machine cannot go on does not depend on how it got there.
  lemma {:induction false} OneEnd(c: HConf, d: HConf, e: HConf, m: nat, n: nat)
    requires HSteps(c, m) == Some(d) && HSteps(c, n) == Some(e) && HStep(d).None? && HStep(e).None?
    ensures d == e
    decreases m
  {
    hide HStep;
    if m > 0 && n > 0 { OneEnd(HStep(c).value, d, e, m - 1, n - 1); }
  }

  lemma SameEnd(c: HConf, d: HConf, e: HConf)
    requires HRuns(c, d) && HRuns(c, e) && HStep(d).None? && HStep(e).None?
    ensures d == e
  {
    hide HStep, HSteps;
    var m: nat :| HSteps(c, m) == Some(d);
    var n: nat :| HSteps(c, n) == Some(e);
    OneEnd(c, d, e, m, n);
  }

  lemma EndModes(c: HConf)
    requires c.mode == CODED || c.mode == OTHER || c.mode == WRONG
    ensures HStep(c).None?
  {}

  // inflate() at the start of a block that was written: it builds tables for exactly the codes the
  // block was written with, and has the tokens before it.
  method ReadBlock(h: Header, r: Reader, ghost bl: seq<CtData>, ghost t: Tables, ghost p: Codes, ghost clens: seq<bitlen>, ghost blcodes: nat,
                   ghost last: bool, ghost ts: seq<Token>, ghost more: seq<bool>)
    requires h.Valid() && r.Valid() && h.mode == TYPEDO && Described(bl, t, p, clens, blcodes, ts)
    requires r.Rest() == BlockBits(bl, t, p, clens, blcodes, last, ts) + more
    modifies h, h.lens, h.codes, h.work, r
    ensures h.Valid() && r.Valid() && h.mode == CODED && h.last == last
    ensures h.lenEnd <= h.distEnd <= h.codes.Length
    ensures EntryLookup.Ready(h.codes[..h.lenEnd], h.lenbits, LENS, p.llens)
    ensures EntryLookup.Ready(h.codes[h.lenEnd..h.distEnd], h.distbits, DISTS, p.dlens)
    ensures r.Rest() == (TokensBits(t, p, ts) + CodeBits(p.llens, END_BLOCK)) + more
  {
    hide HStep, HRuns, Described, BlockBits, TokensBits, CodeBits, RestOf, EntryLookup.Ready, Header.Coming, Header.Reading;
    ghost var c := h.Abs(r);
    ghost var d := HeaderOf(c, bl, t, p, clens, blcodes, last, ts, more);
    EndModes(d);
    h.Read(r);
    if h.mode == CODED || h.mode == OTHER || h.mode == WRONG { EndModes(h.Abs(r)); }
    SameEnd(c, h.Abs(r), d);
    assert (p.llens + p.dlens)[..|p.llens|] == p.llens && (p.llens + p.dlens)[|p.llens|..] == p.dlens;
  }

  lemma HeaderOf(h: HConf, bl: seq<CtData>, t: Tables, p: Codes, clens: seq<bitlen>, blcodes: nat, last: bool, ts: seq<Token>, more: seq<bool>)
    returns (d: HConf)
    requires Described(bl, t, p, clens, blcodes, ts)
    requires h.mode == TYPEDO && h.rest == BlockBits(bl, t, p, clens, blcodes, last, ts) + more
    ensures HRuns(h, d) && d.mode == CODED && d.last == last && d.nlen == |p.llens| && d.lens == p.llens + p.dlens
    ensures d.rest == (TokensBits(t, p, ts) + CodeBits(p.llens, END_BLOCK)) + more
  {
    hide HStep, HRuns, TreesBits, TokensBits, CodeBits, BitsOf, RunsOf, TreeSending.Sendable, NoneAfter, AllEncodable, CodeTables.Ready, Kraft,
         Pow2, Val, InPlace, Padded;
    var a, b, e := BitsOf(if last then 5 else 4, 3), TreesBits(bl, p.llens, p.dlens, clens, blcodes),
                   TokensBits(t, p, ts) + CodeBits(p.llens, END_BLOCK);
    Regroup(a, b, e, more);
    TypeBits(last, b + (e + more));
    TypeStep(h);
    HRunsStep(h);
    var h1 := HStep(h).value;
    d := HeaderReads(h1, bl, p.llens, p.dlens, clens, blcodes, e + more);
    HRunsTrans(h, h1, d);
  }
}
