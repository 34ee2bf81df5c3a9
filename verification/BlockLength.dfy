// A dynamic block as _tr_flush_block writes it (deps/zlib/trees.c:831-852, 1000-1063): the trees
// built from the symbol counts encode every symbol, and the bits written are exactly those that
// opt_len announced.

module BlockLength {
  import opened Powers
  import opened Canonical
  import opened TableLayout
  import opened BlockDecoding
  import opened Tokens
  import opened CodeTables
  import opened CompressBlock
  import opened TreeLengths
  import opened BitLengths
  import opened OptimalCodes
  import opened ForcedCodes
  import opened LengthRuns
  import opened TreeSending
  import opened BlTree

  const L_CODES := 286

  function StaticLens(): (lens: seq<nat>)
    ensures |lens| == L_CODES
  {
    seq(L_CODES, i => if i < 144 then 8 else if i < 256 then 9 else if i < 280 then 7 else 8)
  }

  function StaticDists(): (lens: seq<nat>)
    ensures |lens| == D_CODES
  {
    seq(D_CODES, i => 5)
  }

  function LDesc(): Desc { Desc(L_CODES, 15, LITERALS + 1, EXTRA_LBITS, StaticLens()) }

  function DDesc(): Desc { Desc(D_CODES, 15, 0, EXTRA_DBITS, StaticDists()) }

  lemma DescsOk()
    ensures ValidDesc(LDesc()) && ValidDesc(DDesc())
    ensures LDesc().elems == L_CODES && DDesc().elems == D_CODES
    ensures forall i | 0 <= i <= 2 :: ExtraOf(LDesc(), i) == 0 && ExtraOf(DDesc(), i) == 0
  {
    assert Pow2(8) == 256;
    assert Pow2(15) == 32768;
  }

  // ------------------------------------------------------------ symbol counts

  predicate AllOk(ts: seq<Token>) { forall i | 0 <= i < |ts| :: TokenOk(ts[i]) }

  // The literal/length symbol of a token, and the distance symbol of a copy.
  function LSymbol(t: Tables, tok: Token): (s: nat)
    requires Ready(t) && TokenOk(tok)
    ensures s < L_CODES
  {
    match tok
    case Literal(b) => b
    case Copy(n, d) =>
      LengthCodeFits(t, n);
      t.lengthCode[n - 3] + LITERALS + 1
  }

  function DSymbol(t: Tables, tok: Token): (s: nat)
    requires Ready(t) && TokenOk(tok) && tok.Copy?
    ensures s < D_CODES
  {
    DistCodeFits(t, tok.distance);
    DCode(t.distCode, tok.distance - 1)
  }

  function Bumped(f: seq<nat>, s: nat): (g: seq<nat>)
    requires s < |f|
    ensures |g| == |f|
  {
    f[s := f[s] + 1]
  }

  // What init_block and _tr_tally count: every symbol of the tokens, and one end of block.
  function LUses(t: Tables, ts: seq<Token>): (f: seq<nat>)
    requires Ready(t) && AllOk(ts)
    ensures |f| == L_CODES
  {
    if ts == [] then seq(L_CODES, i => if i == END_BLOCK then 1 else 0) else Bumped(LUses(t, ts[1..]), LSymbol(t, ts[0]))
  }

  function DUses(t: Tables, ts: seq<Token>): (f: seq<nat>)
    requires Ready(t) && AllOk(ts)
    ensures |f| == D_CODES
  {
    if ts == [] then seq(D_CODES, i => 0)
    else if ts[0].Copy? then Bumped(DUses(t, ts[1..]), DSymbol(t, ts[0]))
    else DUses(t, ts[1..])
  }

  lemma {:induction false} EndCounted(t: Tables, ts: seq<Token>)
    requires Ready(t) && AllOk(ts)
    ensures LUses(t, ts)[END_BLOCK] > 0
  {
    if ts != [] { EndCounted(t, ts[1..]); }
  }

  // Every symbol counted has a word in these codes.
  ghost predicate HasWords(f: seq<nat>, lens: seq<bitlen>) {
    forall s | 0 <= s < |f| && f[s] > 0 :: Coded(lens, s)
  }

  lemma FewerCovered(f: seq<nat>, s: nat, lens: seq<bitlen>)
    requires s < |f| && HasWords(Bumped(f, s), lens)
    ensures HasWords(f, lens) && Coded(lens, s)
  {
    var g := Bumped(f, s);
    assert g[s] > 0;
    forall u | 0 <= u < |f| && f[u] > 0 ensures Coded(lens, u) { assert g[u] > 0; }
  }

  lemma {:induction false} AllCovered(t: Tables, p: Codes, ts: seq<Token>)
    requires Ready(t) && AllOk(ts) && HasWords(LUses(t, ts), p.llens) && HasWords(DUses(t, ts), p.dlens)
    ensures AllEncodable(t, p, ts)
    decreases |ts|
  {
    if ts != [] {
      hide Ready, HasWords, LSymbol, DSymbol;
      FewerCovered(LUses(t, ts[1..]), LSymbol(t, ts[0]), p.llens);
      if ts[0].Copy? { FewerCovered(DUses(t, ts[1..]), DSymbol(t, ts[0]), p.dlens); }
      OneCovered(t, p, ts[0]);
      AllCovered(t, p, ts[1..]);
    }
  }

  lemma OneCovered(t: Tables, p: Codes, tok: Token)
    requires Ready(t) && TokenOk(tok) && Coded(p.llens, LSymbol(t, tok)) && (tok.Copy? ==> Coded(p.dlens, DSymbol(t, tok)))
    ensures Encodable(t, p, tok)
  {}

  // ------------------------------------------------------------ the bits of the symbols

  lemma ExtraIs(c: nat)
    ensures c < LENGTH_CODES ==> ExtraOf(LDesc(), c + LITERALS + 1) == EXTRA_LBITS[c]
    ensures c <= LITERALS ==> ExtraOf(LDesc(), c) == 0
    ensures c < D_CODES ==> ExtraOf(DDesc(), c) == EXTRA_DBITS[c]
  {
    hide StaticLens, StaticDists;
  }

  lemma LengthWidth(t: Tables, p: Codes, n: nat)
    requires Ready(t) && MIN_MATCH <= n <= MAX_MATCH && Coded(p.llens, t.lengthCode[n - 3] + LITERALS + 1)
    ensures var s := t.lengthCode[n - 3] + LITERALS + 1;
      s < |p.llens| && |LengthBits(t, p, n)| == p.llens[s] + ExtraOf(LDesc(), s)
  {
    hide InLengthCode, InDistCode, LFirst, DFirst, Pow2, LDesc, ExtraOf, LengthBase, LengthExtra, Huff, CodeBits;
    LengthCodeFits(t, n);
    ExtraIs(t.lengthCode[n - 3]);
  }

  lemma DistWidth(t: Tables, p: Codes, d: nat)
    requires Ready(t) && 1 <= d <= 32768 && Coded(p.dlens, DCode(t.distCode, d - 1))
    ensures var s := DCode(t.distCode, d - 1);
      s < |p.dlens| && |DistBits(t, p, d)| == p.dlens[s] + ExtraOf(DDesc(), s)
  {
    hide InLengthCode, InDistCode, LFirst, DFirst, Pow2, DDesc, ExtraOf, DistBase, DistExtra, DCode, Huff;
    DistCodeFits(t, d);
    ExtraIs(DCode(t.distCode, d - 1));
  }

  lemma TokenWidth(t: Tables, p: Codes, tok: Token)
    requires Ready(t) && TokenOk(tok) && Encodable(t, p, tok)
    ensures LSymbol(t, tok) < |p.llens| && (tok.Copy? ==> DSymbol(t, tok) < |p.dlens|)
    ensures |TokenBits(t, p, tok)| == p.llens[LSymbol(t, tok)] + ExtraOf(LDesc(), LSymbol(t, tok))
         + if tok.Copy? then p.dlens[DSymbol(t, tok)] + ExtraOf(DDesc(), DSymbol(t, tok)) else 0
  {
    hide Ready, LDesc, DDesc, ExtraOf, LSymbol, DSymbol, TokenBits;
    if tok.Copy? { CopyWidth(t, p, tok); } else { LiteralWidth(t, p, tok); }
  }

  lemma LiteralWidth(t: Tables, p: Codes, tok: Token)
    requires Ready(t) && tok.Literal? && Encodable(t, p, tok)
    ensures LSymbol(t, tok) < |p.llens|
    ensures |TokenBits(t, p, tok)| == p.llens[LSymbol(t, tok)] + ExtraOf(LDesc(), LSymbol(t, tok))
  {
    hide LengthsReady, DistsReady, LDesc, ExtraOf, Huff;
    ExtraIs(tok.b);
  }

  lemma CopyWidth(t: Tables, p: Codes, tok: Token)
    requires Ready(t) && TokenOk(tok) && tok.Copy? && Encodable(t, p, tok)
    ensures LSymbol(t, tok) < |p.llens| && DSymbol(t, tok) < |p.dlens|
    ensures |TokenBits(t, p, tok)| == p.llens[LSymbol(t, tok)] + ExtraOf(LDesc(), LSymbol(t, tok))
         + p.dlens[DSymbol(t, tok)] + ExtraOf(DDesc(), DSymbol(t, tok))
  {
    hide InLengthCode, InDistCode, LFirst, DFirst, LDesc, DDesc, ExtraOf, DCode, LengthBits, DistBits, Huff;
    LengthWidth(t, p, tok.length);
    DistWidth(t, p, tok.distance);
  }

  lemma BumpedBill(desc: Desc, f: seq<nat>, s: nat, lens: seq<nat>, n: nat)
    requires s < |f| && s < n
    ensures BillTotal(desc, Bumped(f, s), lens, n) == BillTotal(desc, f, lens, n) + TreeLengths.At(lens, s) + ExtraOf(desc, s)
  {
    hide Bill;
    BillUpdate(desc, f, lens, s, f[s] + 1, n);
    OneMoreBill(desc, f[s], s, TreeLengths.At(lens, s));
  }

  lemma EndBill(t: Tables, lens: seq<nat>)
    requires Ready(t)
    ensures BillTotal(LDesc(), LUses(t, []), lens, L_CODES) == TreeLengths.At(lens, END_BLOCK)
  {
    hide Ready, BillTotal, Bill, StaticLens;
    var none: seq<nat> := seq(L_CODES, i => 0);
    BillTail(LDesc(), none, lens, 0, L_CODES);
    NoBill(LDesc(), none, lens);
    BumpedBill(LDesc(), none, END_BLOCK, lens, L_CODES);
    assert LUses(t, []) == Bumped(none, END_BLOCK);
  }

  lemma NoneBill(t: Tables, lens: seq<nat>)
    requires Ready(t)
    ensures BillTotal(DDesc(), DUses(t, []), lens, D_CODES) == 0
  {
    hide Ready, BillTotal, Bill, StaticDists;
    BillTail(DDesc(), DUses(t, []), lens, 0, D_CODES);
    NoBill(DDesc(), DUses(t, []), lens);
  }

  // A block's symbols take the bits they are billed for.
  lemma {:induction false} TokensLength(t: Tables, p: Codes, ts: seq<Token>)
    requires Ready(t) && AllOk(ts) && AllEncodable(t, p, ts) && Coded(p.llens, END_BLOCK)
    ensures |TokensBits(t, p, ts)| + |CodeBits(p.llens, END_BLOCK)|
         == BillTotal(LDesc(), LUses(t, ts), p.llens, L_CODES) + BillTotal(DDesc(), DUses(t, ts), p.dlens, D_CODES)
    decreases |ts|
  {
    hide Ready, BillTotal, LDesc, DDesc, ExtraOf, Bumped, TokenBits, LSymbol, DSymbol;
    if ts == [] {
      EndBill(t, p.llens);
      NoneBill(t, p.dlens);
    } else {
      TokensLength(t, p, ts[1..]);
      TokenWidth(t, p, ts[0]);
      BumpedBill(LDesc(), LUses(t, ts[1..]), LSymbol(t, ts[0]), p.llens, L_CODES);
      if ts[0].Copy? { BumpedBill(DDesc(), DUses(t, ts[1..]), DSymbol(t, ts[0]), p.dlens, D_CODES); }
    }
  }
}
