// compress_block (deps/zlib/trees.c:898-949): writing a block's symbols with given
// code trees, and the proof that the decoding machine reads them back.

module CompressBlock {
  import opened Powers
  import opened Bits
  import opened Canonical
  import opened TreeCodes
  import opened TableLayout
  import opened BlockDecoding
  import opened Tokens
  import opened CodeTables
  import opened BitOutput

  const END_BLOCK := 256
  const LITERALS := 256

  // ------------------------------------------------------------ symbol buffer

  // Three bytes a symbol: the distance, low byte first, then the literal or length - 3.
  function SymbolAt(symBuf: seq<byte>, sx: nat): Token
    requires sx + 3 <= |symBuf|
  {
    var dist: nat, lc: nat := (symBuf[sx] as nat) + 256 * (symBuf[sx + 1] as nat), symBuf[sx + 2];
    if dist == 0 then Literal(lc) else Copy(lc + MIN_MATCH, dist)
  }

  function SymbolsFrom(symBuf: seq<byte>, sx: nat): seq<Token>
    requires sx <= |symBuf| && (|symBuf| - sx) % 3 == 0
    decreases |symBuf| - sx
  {
    if sx == |symBuf| then [] else [SymbolAt(symBuf, sx)] + SymbolsFrom(symBuf, sx + 3)
  }

  // ------------------------------------------------------------ the bits of a symbol

  ghost predicate Encodable(t: Tables, p: Codes, tok: Token)
    requires Ready(t)
  {
    match tok
    case Literal(b) => Coded(p.llens, b)
    case Copy(n, d) =>
      && TokenOk(tok)
      && Coded(p.llens, t.lengthCode[n - 3] + LITERALS + 1)
      && Coded(p.dlens, DCode(t.distCode, d - 1))
  }

  function LengthBits(t: Tables, p: Codes, n: nat): seq<bool>
    requires Ready(t) && MIN_MATCH <= n <= MAX_MATCH && Coded(p.llens, t.lengthCode[n - 3] + LITERALS + 1)
  {
    var c := t.lengthCode[n - 3];
    LengthCodeFits(t, n);
    CodeBits(p.llens, c + LITERALS + 1) + BitsOf(n - 3 - t.baseLength[c], EXTRA_LBITS[c])
  }

  // The code of length n, in the decoder's terms.
  lemma LengthCodeFits(t: Tables, n: nat)
    requires Ready(t) && MIN_MATCH <= n <= MAX_MATCH
    ensures var c := t.lengthCode[n - 3];
            c < LENGTH_CODES && t.baseLength[c] <= n - 3 && EXTRA_LBITS[c] == LengthExtra(c) <= 5
            && LengthBase(c) + (if EXTRA_LBITS[c] == 0 then 0 else n - 3 - t.baseLength[c]) == n
            && (EXTRA_LBITS[c] != 0 ==> n - 3 - t.baseLength[c] < Pow2(EXTRA_LBITS[c]))
  {
    hide LFirst, LSpan, Pow2, DistsReady, LengthBase, LengthExtra;
    var c := t.lengthCode[n - 3];
    if n < 258 {
      assert InLengthCode(c, n - 3);
    }
    LengthsOf(c);
  }

  // The decoder's figures for a length code, in the encoder's terms.
  lemma LengthsOf(c: nat)
    requires c < LENGTH_CODES
    ensures EXTRA_LBITS[c] == LengthExtra(c) <= 5 && LFirst(c) == LengthBase(c)
    ensures LSpan(c) == Pow2(EXTRA_LBITS[c]) && (EXTRA_LBITS[c] == 0 ==> LSpan(c) == 1)
    ensures c == 28 ==> EXTRA_LBITS[c] == 0 && LengthBase(c) == 258
  {
    hide Pow2;
    LengthExtras(c);
    NoPower();
  }

  lemma NoPower()
    ensures Pow2(0) == 1
  {}

  lemma DistCodeFits(t: Tables, d: nat)
    requires Ready(t) && 1 <= d <= 32768
    ensures var c := DCode(t.distCode, d - 1);
            c < D_CODES && t.baseDist[c] <= d - 1 && EXTRA_DBITS[c] == DistExtra(c) <= 13
            && DistBase(c) + (d - 1 - t.baseDist[c]) == d && d - 1 - t.baseDist[c] < Pow2(EXTRA_DBITS[c])
  {
    var c := DCode(t.distCode, d - 1);
    assert InDistCode(c, d - 1);
    DistExtras(c);
  }

  function DistBits(t: Tables, p: Codes, d: nat): seq<bool>
    requires Ready(t) && 1 <= d <= 32768 && Coded(p.dlens, DCode(t.distCode, d - 1))
  {
    var c := DCode(t.distCode, d - 1);
    DistCodeFits(t, d);
    CodeBits(p.dlens, c) + BitsOf(d - 1 - t.baseDist[c], EXTRA_DBITS[c])
  }

  function TokenBits(t: Tables, p: Codes, tok: Token): seq<bool>
    requires Ready(t) && Encodable(t, p, tok)
  {
    match tok
    case Literal(b) => CodeBits(p.llens, b)
    case Copy(n, d) => LengthBits(t, p, n) + DistBits(t, p, d)
  }

  ghost predicate AllEncodable(t: Tables, p: Codes, ts: seq<Token>)
    requires Ready(t)
  {
    |ts| == 0 || (Encodable(t, p, ts[0]) && AllEncodable(t, p, ts[1..]))
  }

  function TokensBits(t: Tables, p: Codes, ts: seq<Token>): seq<bool>
    requires Ready(t) && AllEncodable(t, p, ts)
  {
    if |ts| == 0 then [] else TokenBits(t, p, ts[0]) + TokensBits(t, p, ts[1..])
  }

  // ------------------------------------------------------------ the writer

  // A tree whose codes gen_codes has set.
  ghost predicate TreeHolds(tree: seq<CtData>, lens: seq<bitlen>) {
    |lens| <= |tree| && forall s: nat :: Coded(lens, s) ==> tree[s] == CtData(Huff(lens, s), lens[s])
  }

  method SendCode(w: BitBuffer, tree: seq<CtData>, c: nat, ghost lens: seq<bitlen>)
    requires w.Valid() && TreeHolds(tree, lens) && Coded(lens, c)
    modifies w
    ensures w.Valid() && w.Written() == old(w.Written()) + CodeBits(lens, c)
  {
    w.SendBits(tree[c].fc, tree[c].dl);
  }

  method SendLength(w: BitBuffer, t: Tables, ltree: seq<CtData>, lc: nat, ghost p: Codes)
    requires w.Valid() && Ready(t) && lc <= 255 && TreeHolds(ltree, p.llens)
    requires Coded(p.llens, t.lengthCode[lc] + LITERALS + 1)
    modifies w
    ensures w.Valid() && w.Written() == old(w.Written()) + LengthBits(t, p, lc + 3)
  {
    hide InLengthCode, InDistCode, LFirst, DFirst, TreeHolds, CodeBits, BitsOf, Pow2, LengthExtra, LengthBase, Huff,
         BitBuffer.Valid, BitBuffer.Written;
    LengthCodeFits(t, lc + 3);
    ghost var w0 := w.Written();
    var code := t.lengthCode[lc];
    SendCode(w, ltree, code + LITERALS + 1, p.llens);
    var extra := EXTRA_LBITS[code];
    if extra != 0 {
      w.SendBits(lc - t.baseLength[code], extra);
    } else {
      NoBits(lc - t.baseLength[code]);
    }
    Assoc(w0, CodeBits(p.llens, code + 257), BitsOf(lc - t.baseLength[code], extra));
  }

  lemma NoBits(v: nat)
    ensures BitsOf(v, 0) == []
  {}

  method SendDist(w: BitBuffer, t: Tables, dtree: seq<CtData>, dist: nat, ghost p: Codes)
    requires w.Valid() && Ready(t) && 1 <= dist <= 32768 && TreeHolds(dtree, p.dlens)
    requires Coded(p.dlens, DCode(t.distCode, dist - 1))
    modifies w
    ensures w.Valid() && w.Written() == old(w.Written()) + DistBits(t, p, dist)
  {
    hide InLengthCode, InDistCode, LFirst, DFirst, TreeHolds, CodeBits, BitsOf, Pow2, DistExtra, DistBase, Huff, DCode,
         BitBuffer.Valid, BitBuffer.Written;
    DistCodeFits(t, dist);
    ghost var w0 := w.Written();
    var d := dist - 1;   // the match distance - 1
    var code := DCode(t.distCode, d);
    SendCode(w, dtree, code, p.dlens);
    var extra := EXTRA_DBITS[code];
    if extra != 0 {
      w.SendBits(d - t.baseDist[code], extra);
    } else {
      NoBits(d - t.baseDist[code]);
    }
    Assoc(w0, CodeBits(p.dlens, code), BitsOf(d - t.baseDist[code], extra));
  }

  // Sends one symbol of the buffer.
  method SendSymbol(w: BitBuffer, t: Tables, ltree: seq<CtData>, dtree: seq<CtData>, symBuf: seq<byte>, sx: nat, ghost p: Codes)
    requires w.Valid() && Ready(t) && TreeHolds(ltree, p.llens) && TreeHolds(dtree, p.dlens)
    requires sx + 3 <= |symBuf| && Encodable(t, p, SymbolAt(symBuf, sx))
    modifies w
    ensures w.Valid() && w.Written() == old(w.Written()) + TokenBits(t, p, SymbolAt(symBuf, sx))
  {
    hide Ready, TreeHolds, LengthBits, DistBits, CodeBits;
    var dist: nat, lc: nat := (symBuf[sx] as nat) + 256 * (symBuf[sx + 1] as nat), symBuf[sx + 2];
    if dist == 0 {
      SendCode(w, ltree, lc, p.llens);
    } else {
      ghost var w0 := w.Written();
      SendLength(w, t, ltree, lc, p);
      SendDist(w, t, dtree, dist, p);
      Assoc(w0, LengthBits(t, p, lc + 3), DistBits(t, p, dist));
    }
  }

  // Writes the whole buffer and the end-of-block code.
  method CompressBlock(w: BitBuffer, t: Tables, ltree: seq<CtData>, dtree: seq<CtData>, symBuf: seq<byte>, ghost p: Codes)
    requires w.Valid() && Ready(t) && TreeHolds(ltree, p.llens) && TreeHolds(dtree, p.dlens)
    requires |symBuf| % 3 == 0 && AllEncodable(t, p, SymbolsFrom(symBuf, 0)) && Coded(p.llens, END_BLOCK)
    modifies w
    ensures w.Valid()
    ensures w.Written() == old(w.Written()) + (TokensBits(t, p, SymbolsFrom(symBuf, 0)) + CodeBits(p.llens, END_BLOCK))
  {
    hide Ready, TreeHolds, AllEncodable, SymbolsFrom, TokensBits, TokenBits, CodeBits, BitBuffer.Valid, BitBuffer.Written;
    ghost var w0, all := w.Written(), TokensBits(t, p, SymbolsFrom(symBuf, 0));
    ghost var sent: seq<bool> := [];
    var sx := 0;
    while sx < |symBuf|
      invariant 0 <= sx <= |symBuf| && (|symBuf| - sx) % 3 == 0
      invariant AllEncodable(t, p, SymbolsFrom(symBuf, sx))
      invariant w.Valid() && w.Written() == w0 + sent
      invariant sent + TokensBits(t, p, SymbolsFrom(symBuf, sx)) == all
    {
      NextSymbol(t, p, symBuf, sx);
      ghost var bits := TokenBits(t, p, SymbolAt(symBuf, sx));
      SendSymbol(w, t, ltree, dtree, symBuf, sx, p);
      assert AllEncodable(t, p, SymbolsFrom(symBuf, sx + 3));
      Assoc(w0, sent, bits);
      Assoc(sent, bits, TokensBits(t, p, SymbolsFrom(symBuf, sx + 3)));
      sent := sent + bits;
      sx := sx + 3;
    }
    SendCode(w, ltree, END_BLOCK, p.llens);
    LastSymbol(t, p, symBuf, sx, sent);
    Assoc(w0, sent, CodeBits(p.llens, END_BLOCK));
  }

  lemma NextSymbol(t: Tables, p: Codes, symBuf: seq<byte>, sx: nat)
    requires Ready(t) && sx < |symBuf| && (|symBuf| - sx) % 3 == 0
    requires AllEncodable(t, p, SymbolsFrom(symBuf, sx))
    ensures sx + 3 <= |symBuf| && (|symBuf| - (sx + 3)) % 3 == 0 && Encodable(t, p, SymbolAt(symBuf, sx))
    ensures AllEncodable(t, p, SymbolsFrom(symBuf, sx + 3))
    ensures TokensBits(t, p, SymbolsFrom(symBuf, sx)) ==
            TokenBits(t, p, SymbolAt(symBuf, sx)) + TokensBits(t, p, SymbolsFrom(symBuf, sx + 3))
  {
    var ts := SymbolsFrom(symBuf, sx);
    assert ts[0] == SymbolAt(symBuf, sx);
    assert ts[1..] == SymbolsFrom(symBuf, sx + 3);
  }

  lemma LastSymbol(t: Tables, p: Codes, symBuf: seq<byte>, sx: nat, sent: seq<bool>)
    requires Ready(t) && sx == |symBuf|
    ensures sent + TokensBits(t, p, SymbolsFrom(symBuf, sx)) == sent
  {}

  // ------------------------------------------------------------ reading back

  // From this configuration on, only what is still to be read and what was written count.
  ghost predicate At(c: Conf, mode: Mode, rest: seq<bool>, out: seq<byte>, seen: nat) {
    c.mode == mode && c.rest == rest && c.out == out && c.seen == seen
  }

  lemma {:induction false} CopyBackFront(out: seq<byte>, n: nat, d: nat)
    requires 1 <= d <= |out| && n > 0
    ensures CopyBack(out + [out[|out| - d]], n - 1, d) == CopyBack(out, n, d)
    decreases n
  {
    if n > 1 { CopyBackFront(out, n - 1, d); }
  }

  lemma StepMatch(p: Codes, c: Conf)
    requires c.mode == MATCH && c.length > 0 && 1 <= c.offset <= c.seen <= |c.out|
    ensures Step(p, c) == Some(Normal(c.(mode := if c.length == 1 then LEN else MATCH, length := c.length - 1,
                                         out := c.out + [c.out[|c.out| - c.offset]], seen := c.seen + 1)))
  {}

  lemma StepLength(p: Codes, c: Conf, s: nat, more: seq<bool>) returns (d: Conf)
    requires c.mode == LEN && 257 <= s < 286 && Coded(p.llens, s) && Kraft(p.llens) <= Pow2(15)
    requires c.rest == CodeBits(p.llens, s) + more
    ensures Runs(p, c, d) && At(d, LENEXT, more, c.out, c.seen)
    ensures d.length == LengthBase(s - 257) && d.extra == LengthExtra(s - 257)
  {
    hide LengthBase, LengthExtra, DistBase, DistExtra;
    LookUpFront(p.llens, s, more);
    d := Step(p, c).value;
    RunsStep(p, c, d);
  }

  lemma StepDist(p: Codes, c: Conf, s: nat, more: seq<bool>) returns (d: Conf)
    requires c.mode == DIST && s < 30 && Coded(p.dlens, s) && Kraft(p.dlens) <= Pow2(15)
    requires c.rest == CodeBits(p.dlens, s) + more
    ensures Runs(p, c, d) && At(d, DISTEXT, more, c.out, c.seen)
    ensures d.length == c.length && d.offset == DistBase(s) && d.extra == DistExtra(s)
  {
    hide LengthBase, LengthExtra, DistBase, DistExtra;
    LookUpFront(p.dlens, s, more);
    d := Step(p, c).value;
    RunsStep(p, c, d);
  }

  lemma StepExtra(p: Codes, c: Conf, x: nat, more: seq<bool>) returns (d: Conf)
    requires (c.mode == LENEXT || c.mode == DISTEXT) && x < Pow2(c.extra) && c.rest == BitsOf(x, c.extra) + more
    ensures Runs(p, c, d)
    ensures c.mode == LENEXT ==> At(d, DIST, more, c.out, c.seen) && d.length == c.length + x
    ensures c.mode == DISTEXT ==> At(d, MATCH, more, c.out, c.seen) && d.length == c.length && d.offset == c.offset + x
  {
    ExtraFront(x, c.extra, more);
    d := Step(p, c).value;
    RunsStep(p, c, d);
  }

  lemma {:induction false} MatchRuns(p: Codes, c: Conf) returns (c': Conf)
    requires c.mode == MATCH && c.length > 0 && 1 <= c.offset <= c.seen <= |c.out|
    ensures Runs(p, c, c') && At(c', LEN, c.rest, CopyBack(c.out, c.length, c.offset), c.seen + c.length)
    decreases c.length
  {
    hide Runs, Step;
    StepMatch(p, c);
    var d := Step(p, c).value;
    RunsStep(p, c, d);
    CopyBackFront(c.out, c.length, c.offset);
    if c.length == 1 {
      c' := d;
    } else {
      c' := MatchRuns(p, d);
      RunsTrans(p, c, d, c');
    }
  }

  lemma LookUpFront(lens: seq<bitlen>, s: nat, more: seq<bool>)
    requires Coded(lens, s) && Kraft(lens) <= Pow2(15)
    ensures LookUp(lens, CodeBits(lens, s) + more) == Found(s)
    ensures (CodeBits(lens, s) + more)[lens[s]..] == more
  {
    CodeBitsMatch(lens, s, more);
    LookUpIs(lens, CodeBits(lens, s) + more, s);
  }

  // The extra bits are read back as the number that was sent.
  lemma ExtraFront(x: nat, n: nat, more: seq<bool>)
    requires x < Pow2(n)
    ensures Val((BitsOf(x, n) + more)[..n]) == x && (BitsOf(x, n) + more)[n..] == more
  {
    assert (BitsOf(x, n) + more)[..n] == BitsOf(x, n);
    ValBitsOf(x, n);
    LoSmall(x, n);
  }

  lemma LiteralRuns(t: Tables, p: Codes, c: Conf, b: byte, more: seq<bool>) returns (c': Conf)
    requires ValidCodes(p) && Coded(p.llens, b)
    requires c.mode == LEN && c.rest == CodeBits(p.llens, b) + more
    ensures Runs(p, c, c') && At(c', LEN, more, c.out + [b], c.seen + 1)
  {
    LookUpFront(p.llens, b, more);
    var d := Step(p, c).value;
    RunsStep(p, c, d);
    c' := Step(p, d).value;
    RunsThen(p, c, d, c');
  }

  lemma LengthRuns(t: Tables, p: Codes, c: Conf, n: nat, more: seq<bool>) returns (c': Conf)
    requires ValidCodes(p) && Ready(t) && MIN_MATCH <= n <= MAX_MATCH
    requires Coded(p.llens, t.lengthCode[n - 3] + LITERALS + 1)
    requires c.mode == LEN && c.rest == LengthBits(t, p, n) + more
    ensures Runs(p, c, c') && At(c', DIST, more, c.out, c.seen) && c'.length == n
  {
    hide Runs, InLengthCode, InDistCode, CodeBits, BitsOf, LengthBase, LengthExtra, DistBase, DistExtra;
    LengthCodeFits(t, n);
    var k := t.lengthCode[n - 3];
    var e := EXTRA_LBITS[k];
    var x := if e == 0 then 0 else n - 3 - t.baseLength[k];
    Assoc(CodeBits(p.llens, k + 257), BitsOf(x, e), more);
    var d := StepLength(p, c, k + 257, BitsOf(x, e) + more);
    c' := StepExtra(p, d, x, more);
    RunsTrans(p, c, d, c');
  }

  lemma DistRuns(t: Tables, p: Codes, c: Conf, dist: nat, more: seq<bool>) returns (c': Conf)
    requires ValidCodes(p) && Ready(t) && 1 <= dist <= 32768
    requires Coded(p.dlens, DCode(t.distCode, dist - 1))
    requires c.mode == DIST && c.rest == DistBits(t, p, dist) + more
    ensures Runs(p, c, c') && At(c', MATCH, more, c.out, c.seen) && c'.length == c.length && c'.offset == dist
  {
    hide Runs, InLengthCode, InDistCode, CodeBits, BitsOf, LengthBase, LengthExtra, DistBase, DistExtra;
    DistCodeFits(t, dist);
    var k := DCode(t.distCode, dist - 1);
    var x, e := dist - 1 - t.baseDist[k], EXTRA_DBITS[k];
    Assoc(CodeBits(p.dlens, k), BitsOf(x, e), more);
    var d := StepDist(p, c, k, BitsOf(x, e) + more);
    c' := StepExtra(p, d, x, more);
    RunsTrans(p, c, d, c');
  }

  // A token is decoded to what it expands to, and exactly its own bits are consumed.
  lemma TokenRuns(t: Tables, p: Codes, c: Conf, tok: Token, more: seq<bool>) returns (c': Conf)
    requires ValidCodes(p) && Ready(t) && Encodable(t, p, tok)
    requires c.mode == LEN && c.rest == TokenBits(t, p, tok) + more
    requires c.seen <= |c.out| && (tok.Copy? ==> tok.distance <= c.seen)
    ensures Runs(p, c, c') && At(c', LEN, more, ExpandOne(c.out, tok), c.seen + |ExpandOne(c.out, tok)| - |c.out|)
  {
    hide Runs, Ready, LengthBits, DistBits, ValidCodes, CodeBits;
    match tok
    case Literal(b) =>
      c' := LiteralRuns(t, p, c, b, more);
    case Copy(n, dist) =>
      Assoc(LengthBits(t, p, n), DistBits(t, p, dist), more);
      var c1 := LengthRuns(t, p, c, n, DistBits(t, p, dist) + more);
      var c2 := DistRuns(t, p, c1, dist, more);
      RunsTrans(p, c, c1, c2);
      c' := MatchRuns(p, c2);
      RunsTrans(p, c, c2, c');
  }

  // Copies reach no further than the decoder can see.
  predicate WithinSight(out: seq<byte>, seen: nat, ts: seq<Token>)
    requires AllReach(out, ts)
    decreases |ts|
  {
    |ts| == 0 ||
    (&& (ts[0].Copy? ==> ts[0].distance <= seen)
     && WithinSight(ExpandOne(out, ts[0]), seen + |ExpandOne(out, ts[0])| - |out|, ts[1..]))
  }

  lemma SightStep(out: seq<byte>, seen: nat, ts: seq<Token>, out': seq<byte>, seen': nat)
    requires |ts| > 0 && AllReach(out, ts) && WithinSight(out, seen, ts)
    requires out' == ExpandOne(out, ts[0]) && seen' == seen + |out'| - |out|
    ensures AllReach(out', ts[1..]) && WithinSight(out', seen', ts[1..])
  {}

  // The symbol round trip: decoding what compress_block writes gives back the tokens'
  // expansion, stops at end of block, and leaves every following bit unread.
  lemma {:induction false} BlockRuns(t: Tables, p: Codes, c: Conf, ts: seq<Token>, more: seq<bool>) returns (c': Conf)
    requires ValidCodes(p) && Ready(t) && AllEncodable(t, p, ts) && Coded(p.llens, END_BLOCK)
    requires c.mode == LEN && c.rest == (TokensBits(t, p, ts) + CodeBits(p.llens, END_BLOCK)) + more
    requires c.seen <= |c.out| && AllReach(c.out, ts) && WithinSight(c.out, c.seen, ts)
    ensures Runs(p, c, c') && c'.mode == TYPE && c'.rest == more && c'.out == Expand(c.out, ts)
    decreases |ts|
  {
    hide Runs, Ready, TokenBits, CodeBits, Encodable;
    if |ts| == 0 {
      assert TokensBits(t, p, ts) + CodeBits(p.llens, END_BLOCK) == CodeBits(p.llens, END_BLOCK);
      LookUpFront(p.llens, END_BLOCK, more);
      c' := Step(p, c).value;
      RunsStep(p, c, c');
    } else {
      var first, others, end := TokenBits(t, p, ts[0]), TokensBits(t, p, ts[1..]), CodeBits(p.llens, END_BLOCK);
      Assoc(first, others, end);
      Assoc(first, others + end, more);
      var c1 := TokenRuns(t, p, c, ts[0], (others + end) + more);
      SightStep(c.out, c.seen, ts, c1.out, c1.seen);
      c' := BlockRuns(t, p, c1, ts[1..], more);
      RunsTrans(p, c, c1, c');
    }
  }
}
