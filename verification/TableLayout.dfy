// Two-level decoding tables (deps/zlib/inftrees.c and inftrees.h): what an entry
// means, and when a table holds the code words of a set of symbols.

module TableLayout {
  import opened Powers
  import opened Bits
  import opened Canonical

  // op: 0 literal, 1..15 link to a sub-table with that many index bits,
  // 16 + e length or distance with e extra bits, 64 invalid, 96 end of block.
  datatype Entry = Entry(op: nat, bits: nat, val: nat)

  datatype CodeType = CODES | LENS | DISTS

  const LBASE: seq<nat> := [3, 4, 5, 6, 7, 8, 9, 10, 11, 13, 15, 17, 19, 23, 27, 31,
                            35, 43, 51, 59, 67, 83, 99, 115, 131, 163, 195, 227, 258, 0, 0]
  const LEXT: seq<nat> := [16, 16, 16, 16, 16, 16, 16, 16, 17, 17, 17, 17, 18, 18, 18, 18,
                           19, 19, 19, 19, 20, 20, 20, 20, 21, 21, 21, 21, 16, 203, 77]
  const DBASE: seq<nat> := [1, 2, 3, 4, 5, 7, 9, 13, 17, 25, 33, 49, 65, 97, 129, 193,
                            257, 385, 513, 769, 1025, 1537, 2049, 3073, 4097, 6145,
                            8193, 12289, 16385, 24577, 0, 0]
  const DEXT: seq<nat> := [16, 16, 16, 16, 17, 17, 18, 18, 19, 19, 20, 20, 21, 21, 22, 22,
                           23, 23, 24, 24, 25, 25, 26, 26, 27, 27, 28, 28, 29, 29, 64, 64]

  // The base and extra bits of length code 257 + i and of distance code i.
  function LengthBase(i: nat): nat requires i < 29 { LBASE[i] }
  function LengthExtra(i: nat): nat requires i < 29 { LEXT[i] - 16 }
  function DistBase(i: nat): nat requires i < 30 { DBASE[i] }
  function DistExtra(i: nat): nat requires i < 30 { DEXT[i] - 16 }

  // The number of symbols the entry tables of a code type reach.
  function MaxSymbols(kind: CodeType): nat {
    match kind case CODES => 19 case LENS => 288 case DISTS => 32
  }

  function SymbolEntry(kind: CodeType, sym: nat, bits: nat): Entry
    requires sym < MaxSymbols(kind)
  {
    match kind
    case CODES => Entry(0, bits, sym)
    case LENS =>
      if sym < 256 then Entry(0, bits, sym)
      else if sym == 256 then Entry(96, bits, 0)
      else Entry(LEXT[sym - 257], bits, LBASE[sym - 257])
    case DISTS => Entry(DEXT[sym], bits, DBASE[sym])
  }

  predicate IsLink(e: Entry) {
    0 < e.op < 16
  }

  lemma SymbolIsNoLink(kind: CodeType, sym: nat, bits: nat)
    requires sym < MaxSymbols(kind)
    ensures !IsLink(SymbolEntry(kind, sym, bits))
  {}

  // Decoding a bit buffer h with a table of the given root size finds entry e,
  // whose bits count everything to drop from the buffer.
  ghost predicate Finds(t: seq<Entry>, root: nat, h: nat, e: Entry) {
    var i := Lo(h, root);
    && i < |t|
    && (if IsLink(t[i]) then
          t[i].bits == root &&
          var j := t[i].val + Lo(Hi(h, t[i].bits), t[i].op);
          j < |t| && !IsLink(t[j]) && t[j].bits >= 1 && e == t[j].(bits := t[i].bits + t[j].bits)
        else
          e == t[i])
  }

  // The table decodes every buffer that starts with a code word of lens to that
  // word's symbol and length, and every other buffer to a one-bit invalid entry.
  ghost predicate Decodes(t: seq<Entry>, root: nat, kind: CodeType, lens: seq<bitlen>)
    requires |lens| <= MaxSymbols(kind)
  {
    && 1 <= root <= 15
    && (forall s: nat, h: nat {:trigger Lo(h, lens[s])} | Coded(lens, s) && Lo(h, lens[s]) == Huff(lens, s) ::
          Finds(t, root, h, SymbolEntry(kind, s, lens[s])))
    && (forall h: nat {:trigger Undecodable(lens, h)} | Undecodable(lens, h) :: Finds(t, root, h, Entry(64, 1, 0)))
  }

  ghost predicate Undecodable(lens: seq<bitlen>, h: nat) {
    forall s: nat | Coded(lens, s) :: Lo(h, lens[s]) != Huff(lens, s)
  }

  // ------------------------------------------------------------ slots

  // Every slot whose low l index bits are g holds e.
  ghost predicate Fills(u: seq<Entry>, l: nat, g: nat, e: Entry) {
    forall j: nat :: j < |u| && Lo(j, l) == g ==> u[j] == e
  }

  // u with e written to exactly those slots.
  function Overlay(u: seq<Entry>, l: nat, g: nat, e: Entry): (r: seq<Entry>)
    ensures |r| == |u|
    ensures forall j: nat :: j < |u| ==> r[j] == if Lo(j, l) == g then e else u[j]
  {
    seq(|u|, j requires 0 <= j < |u| => if Lo(j, l) == g then e else u[j])
  }

  ghost predicate RootFilled(t: seq<Entry>, root: nat, kind: CodeType, lens: seq<bitlen>, s: nat)
    requires |lens| <= MaxSymbols(kind) && s < |lens|
  {
    && Pow2(root) <= |t|
    && Fills(t[..Pow2(root)], lens[s], Huff(lens, s), SymbolEntry(kind, s, lens[s]))
  }

  function LinkSlot(root: nat, lens: seq<bitlen>, s: nat): (r: nat)
    requires s < |lens|
    ensures r < Pow2(root)
  {
    Lo(Huff(lens, s), root)
  }

  ghost predicate LinkOk(t: seq<Entry>, root: nat, low: nat, end: nat) {
    && low < Pow2(root) <= |t|
    && t[low].bits == root && IsLink(t[low])
    && Pow2(root) <= t[low].val
    && t[low].val + Pow2(t[low].op) <= end <= |t|
  }

  ghost predicate SubFilled(t: seq<Entry>, root: nat, kind: CodeType, lens: seq<bitlen>, s: nat, end: nat)
    requires |lens| <= MaxSymbols(kind) && s < |lens| && root < lens[s]
  {
    var low := LinkSlot(root, lens, s);
    && LinkOk(t, root, low, end)
    && lens[s] - root <= t[low].op
    && Fills(t[t[low].val..t[low].val + Pow2(t[low].op)],
             lens[s] - root, Hi(Huff(lens, s), root), SymbolEntry(kind, s, lens[s] - root))
  }

  // Slots give lookups.

  lemma RootFinds(t: seq<Entry>, root: nat, kind: CodeType, lens: seq<bitlen>, s: nat, h: nat)
    requires |lens| <= MaxSymbols(kind) && Coded(lens, s) && lens[s] <= root
    requires RootFilled(t, root, kind, lens, s)
    requires Lo(h, lens[s]) == Huff(lens, s)
    ensures Finds(t, root, h, SymbolEntry(kind, s, lens[s]))
  {
    var i := Lo(h, root);
    LoLo(h, lens[s], root);
    assert t[..Pow2(root)][i] == t[i];
    SymbolIsNoLink(kind, s, lens[s]);
  }

  // A buffer that starts with a long code word, split at the root.
  lemma SplitMatch(lens: seq<bitlen>, s: nat, root: nat, h: nat)
    requires Coded(lens, s) && root < lens[s]
    ensures Lo(h, lens[s]) == Huff(lens, s) <==>
            Lo(h, root) == LinkSlot(root, lens, s) &&
            Lo(Hi(h, root), lens[s] - root) == Hi(Huff(lens, s), root)
  {
    var l, g := lens[s], Huff(lens, s);
    LoSplit(h, root, l - root);
    var lo, hi := Lo(h, root), Lo(Hi(h, root), l - root);
    assert Lo(h, l) == Join(hi, lo, root);
    LoOfJoin(hi, lo, root);
    LoHi(g, root);
    assert g == Join(Hi(g, root), Lo(g, root), root);
  }

  lemma SubFinds(t: seq<Entry>, root: nat, kind: CodeType, lens: seq<bitlen>, s: nat, end: nat, h: nat)
    requires |lens| <= MaxSymbols(kind) && Coded(lens, s) && root < lens[s]
    requires SubFilled(t, root, kind, lens, s, end)
    requires Lo(h, lens[s]) == Huff(lens, s)
    ensures Finds(t, root, h, SymbolEntry(kind, s, lens[s]))
  {
    SplitMatch(lens, s, root, h);
    var link := t[LinkSlot(root, lens, s)];
    var j, b := Lo(Hi(h, root), link.op), lens[s] - root;
    LoLo(Hi(h, root), b, link.op);
    SliceAt(t, link.val, Pow2(link.op), j);
    assert t[link.val + j] == SymbolEntry(kind, s, b);
    SymbolIsNoLink(kind, s, b);
    AddBits(kind, s, root, b);
    TwoStep(t, root, h, link, SymbolEntry(kind, s, b));
  }

  // A lookup through a link.
  lemma TwoStep(t: seq<Entry>, root: nat, h: nat, link: Entry, e: Entry)
    requires Lo(h, root) < |t| && t[Lo(h, root)] == link && IsLink(link) && link.bits == root
    requires link.val + Lo(Hi(h, root), link.op) < |t| && t[link.val + Lo(Hi(h, root), link.op)] == e && !IsLink(e) && e.bits >= 1
    ensures Finds(t, root, h, e.(bits := root + e.bits))
  {
  }

  lemma SliceAt(t: seq<Entry>, at: nat, n: nat, j: nat)
    requires at + n <= |t| && j < n
    ensures t[at..at + n][j] == t[at + j]
  {}

  lemma AddBits(kind: CodeType, s: nat, a: nat, b: nat)
    requires s < MaxSymbols(kind)
    ensures SymbolEntry(kind, s, b).(bits := a + b) == SymbolEntry(kind, s, a + b)
  {}

  // ------------------------------------------------------------ writing slots

  // t with a run of slots [at, at + |u|) replaced by u.
  ghost predicate Replaced(t: seq<Entry>, t': seq<Entry>, at: nat, u: seq<Entry>) {
    && at + |u| <= |t| == |t'|
    && t' == t[..at] + u + t[at + |u|..]
  }

  lemma ReplacedSlice(t: seq<Entry>, t': seq<Entry>, at: nat, u: seq<Entry>, lo: nat, hi: nat)
    requires Replaced(t, t', at, u) && lo <= hi <= |t|
    requires hi <= at || at + |u| <= lo
    ensures t'[lo..hi] == t[lo..hi]
  {
    forall i | lo <= i < hi ensures t'[i] == t[i] {
      if i >= at + |u| { assert t[at + |u|..][i - (at + |u|)] == t[i]; }
    }
  }

  lemma ReplacedAt(t: seq<Entry>, t': seq<Entry>, at: nat, u: seq<Entry>, i: nat)
    requires Replaced(t, t', at, u) && i < at
    ensures t'[i] == t[i]
  {}

  lemma ReplacedSelf(t: seq<Entry>, t': seq<Entry>, at: nat, u: seq<Entry>)
    requires Replaced(t, t', at, u)
    ensures t'[at..at + |u|] == u
  {
    var a := t[..at];
    assert t'[at..at + |u|] == (a + u)[at..at + |u|];
  }

  lemma OverlayFills(u: seq<Entry>, l: nat, g: nat, e: Entry)
    ensures Fills(Overlay(u, l, g, e), l, g, e)
  {}

  // No index ends in both bit strings.
  ghost predicate Apart(l: nat, g: nat, l2: nat, g2: nat) {
    forall j: nat | Lo(j, l) == g :: Lo(j, l2) != g2
  }

  // Overlaying one code word keeps another word's slots when no index has both.
  lemma OverlayKeeps(u: seq<Entry>, l: nat, g: nat, e: Entry, l2: nat, g2: nat, e2: Entry)
    requires Fills(u, l2, g2, e2)
    requires Apart(l, g, l2, g2)
    ensures Fills(Overlay(u, l, g, e), l2, g2, e2)
  {}

  lemma PutRootKeeps(t: seq<Entry>, t': seq<Entry>, root: nat, kind: CodeType, lens: seq<bitlen>, s: nat, s': nat)
    requires |lens| <= MaxSymbols(kind) && Kraft(lens) <= Pow2(15)
    requires Coded(lens, s) && Coded(lens, s') && s != s'
    requires RootFilled(t, root, kind, lens, s')
    requires Replaced(t, t', 0, Overlay(t[..Pow2(root)], lens[s], Huff(lens, s), SymbolEntry(kind, s, lens[s])))
    ensures RootFilled(t', root, kind, lens, s')
  {
    var u := t[..Pow2(root)];
    forall j: nat | Lo(j, lens[s]) == Huff(lens, s)
      ensures Lo(j, lens[s']) != Huff(lens, s')
    {
      if Lo(j, lens[s']) == Huff(lens, s') { PrefixFree(lens, s, s', j); }
    }
    var e := SymbolEntry(kind, s, lens[s]);
    OverlayKeeps(u, lens[s], Huff(lens, s), e, lens[s'], Huff(lens, s'), SymbolEntry(kind, s', lens[s']));
    ReplacedSelf(t, t', 0, Overlay(u, lens[s], Huff(lens, s), e));
  }

  lemma PutRootFills(t: seq<Entry>, t': seq<Entry>, root: nat, kind: CodeType, lens: seq<bitlen>, s: nat)
    requires |lens| <= MaxSymbols(kind) && Coded(lens, s) && Pow2(root) <= |t|
    requires Replaced(t, t', 0, Overlay(t[..Pow2(root)], lens[s], Huff(lens, s), SymbolEntry(kind, s, lens[s])))
    ensures RootFilled(t', root, kind, lens, s)
  {
    var u := Overlay(t[..Pow2(root)], lens[s], Huff(lens, s), SymbolEntry(kind, s, lens[s]));
    OverlayFills(t[..Pow2(root)], lens[s], Huff(lens, s), SymbolEntry(kind, s, lens[s]));
    ReplacedSelf(t, t', 0, u);
  }

  // The slots of the sub-table at [at, at + 2^curr) that belong to s.
  function SubOverlay(t: seq<Entry>, root: nat, kind: CodeType, lens: seq<bitlen>, s: nat, at: nat, curr: nat): seq<Entry>
    requires |lens| <= MaxSymbols(kind) && s < |lens| && root < lens[s] && at + Pow2(curr) <= |t|
  {
    Overlay(t[at..at + Pow2(curr)], lens[s] - root, Hi(Huff(lens, s), root), SymbolEntry(kind, s, lens[s] - root))
  }

  lemma PutSubKeepsRoot(t: seq<Entry>, t': seq<Entry>, root: nat, kind: CodeType, lens: seq<bitlen>, s': nat, at: nat, u: seq<Entry>)
    requires |lens| <= MaxSymbols(kind) && Coded(lens, s')
    requires RootFilled(t, root, kind, lens, s') && Pow2(root) <= at && Replaced(t, t', at, u)
    ensures RootFilled(t', root, kind, lens, s')
  {
    ReplacedSlice(t, t', at, u, 0, Pow2(root));
    assert t'[0..Pow2(root)] == t'[..Pow2(root)] && t[0..Pow2(root)] == t[..Pow2(root)];
  }

  // A word in an earlier sub-table is not touched.
  lemma PutSubKeepsOther(t: seq<Entry>, t': seq<Entry>, root: nat, kind: CodeType, lens: seq<bitlen>, s': nat, at: nat, u: seq<Entry>)
    requires |lens| <= MaxSymbols(kind) && Coded(lens, s') && root < lens[s']
    requires SubFilled(t, root, kind, lens, s', at) && Replaced(t, t', at, u)
    ensures SubFilled(t', root, kind, lens, s', at)
  {
    var low := LinkSlot(root, lens, s');
    ReplacedAt(t, t', at, u, low);
    ReplacedSlice(t, t', at, u, t[low].val, t[low].val + Pow2(t[low].op));
  }

  // A slot number of a sub-table, put together with the slot of its link,
  // gives a buffer that starts with the word.
  lemma JoinMatch(lens: seq<bitlen>, root: nat, s: nat, j: nat)
    requires Coded(lens, s) && root < lens[s]
    requires Lo(j, lens[s] - root) == Hi(Huff(lens, s), root)
    ensures Lo(Join(j, LinkSlot(root, lens, s), root), lens[s]) == Huff(lens, s)
  {
    var low := LinkSlot(root, lens, s);
    LoOfJoin(j, low, root);
    SplitMatch(lens, s, root, Join(j, low, root));
  }

  // Two words of the same sub-table have no index in common.
  lemma SubApartAt(lens: seq<bitlen>, root: nat, s: nat, s': nat, j: nat)
    requires Coded(lens, s) && Coded(lens, s') && s != s' && Kraft(lens) <= Pow2(15)
    requires root < lens[s] && root < lens[s']
    requires LinkSlot(root, lens, s) == LinkSlot(root, lens, s')
    requires Lo(j, lens[s] - root) == Hi(Huff(lens, s), root)
    ensures Lo(j, lens[s'] - root) != Hi(Huff(lens, s'), root)
  {
    if Lo(j, lens[s'] - root) == Hi(Huff(lens, s'), root) {
      JoinMatch(lens, root, s, j);
      JoinMatch(lens, root, s', j);
      var h := Join(j, LinkSlot(root, lens, s), root);
      PrefixFree(lens, s, s', h);
    }
  }

  lemma SubApart(lens: seq<bitlen>, root: nat, s: nat, s': nat, l: nat, l': nat)
    requires Coded(lens, s) && Coded(lens, s') && s != s' && Kraft(lens) <= Pow2(15)
    requires l + root == lens[s] && l' + root == lens[s'] && 0 < l && 0 < l'
    requires LinkSlot(root, lens, s) == LinkSlot(root, lens, s')
    ensures Apart(l, Hi(Huff(lens, s), root), l', Hi(Huff(lens, s'), root))
  {
    var g, g' := Hi(Huff(lens, s), root), Hi(Huff(lens, s'), root);
    forall j: nat | Lo(j, l) == g ensures Lo(j, l') != g' {
      SubApartAt(lens, root, s, s', j);
    }
  }

  lemma PutSubKeepsSame(t: seq<Entry>, t': seq<Entry>, root: nat, kind: CodeType, lens: seq<bitlen>, s: nat, s': nat, at: nat, curr: nat)
    requires |lens| <= MaxSymbols(kind) && Kraft(lens) <= Pow2(15)
    requires Coded(lens, s) && Coded(lens, s') && s != s' && root < lens[s] && root < lens[s']
    requires LinkSlot(root, lens, s) == LinkSlot(root, lens, s')
    requires at + Pow2(curr) <= |t| && Pow2(root) <= at
    requires SubFilled(t, root, kind, lens, s', at + Pow2(curr))
    requires t[LinkSlot(root, lens, s)] == Entry(curr, root, at)
    requires Replaced(t, t', at, SubOverlay(t, root, kind, lens, s, at, curr))
    ensures SubFilled(t', root, kind, lens, s', at + Pow2(curr))
  {
    var low := LinkSlot(root, lens, s);
    var u := t[at..at + Pow2(curr)];
    var l, l' := lens[s] - root, lens[s'] - root;
    SubApart(lens, root, s, s', l, l');
    var v := SubOverlay(t, root, kind, lens, s, at, curr);
    OverlayKeeps(u, l, Hi(Huff(lens, s), root), SymbolEntry(kind, s, l),
                 l', Hi(Huff(lens, s'), root), SymbolEntry(kind, s', l'));
    ReplacedAt(t, t', at, v, low);
    ReplacedSelf(t, t', at, v);
  }

  lemma PutSubFills(t: seq<Entry>, t': seq<Entry>, root: nat, kind: CodeType, lens: seq<bitlen>, s: nat, at: nat, curr: nat)
    requires |lens| <= MaxSymbols(kind) && Coded(lens, s) && root < lens[s] <= root + curr && curr <= 15
    requires at + Pow2(curr) <= |t| && Pow2(root) <= at
    requires t[LinkSlot(root, lens, s)] == Entry(curr, root, at)
    requires Replaced(t, t', at, SubOverlay(t, root, kind, lens, s, at, curr))
    ensures SubFilled(t', root, kind, lens, s, at + Pow2(curr))
  {
    var low := LinkSlot(root, lens, s);
    var v := SubOverlay(t, root, kind, lens, s, at, curr);
    OverlayFills(t[at..at + Pow2(curr)], lens[s] - root, Hi(Huff(lens, s), root), SymbolEntry(kind, s, lens[s] - root));
    ReplacedAt(t, t', at, v, low);
    ReplacedSelf(t, t', at, v);
  }

  // Writing the link of the next long word s spares the short words before it.
  lemma LinkKeepsRoot(t: seq<Entry>, link: Entry, root: nat, kind: CodeType, lens: seq<bitlen>, s: nat, s': nat)
    requires |lens| <= MaxSymbols(kind) && Kraft(lens) <= Pow2(15)
    requires Coded(lens, s) && Coded(lens, s') && s != s' && lens[s'] <= root < lens[s]
    requires RootFilled(t, root, kind, lens, s')
    ensures RootFilled(t[LinkSlot(root, lens, s) := link], root, kind, lens, s')
  {
    var low := LinkSlot(root, lens, s);
    var g := Huff(lens, s);
    if Lo(low, lens[s']) == Huff(lens, s') {
      LoLo(g, lens[s'], root);
      LoSmall(g, lens[s]);
      PrefixFree(lens, s, s', g);
    }
    assert t[low := link][..Pow2(root)] == t[..Pow2(root)][low := link];
  }

  lemma LinkKeepsSub(t: seq<Entry>, link: Entry, low: nat, root: nat, kind: CodeType, lens: seq<bitlen>, s': nat, end: nat)
    requires |lens| <= MaxSymbols(kind) && Coded(lens, s') && root < lens[s'] && low < Pow2(root)
    requires SubFilled(t, root, kind, lens, s', end) && LinkSlot(root, lens, s') != low
    ensures SubFilled(t[low := link], root, kind, lens, s', end)
  {
    var l := t[LinkSlot(root, lens, s')];
    assert t[low := link][l.val..l.val + Pow2(l.op)] == t[l.val..l.val + Pow2(l.op)];
  }
}
