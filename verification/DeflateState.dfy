// The matcher's state (deps/zlib/deflate.h:97-277), its link to the whole text read so
// far, and the small steps of deflate.c on it.

module DeflateState {
  import opened Powers
  import opened Bits
  import opened StringHash
  import opened HashChains
  import opened Tokens
  import opened MatchChoice
  import opened CompressBlock

  const MIN_LOOKAHEAD := MAX_MATCH + MIN_MATCH + 1
  const TOO_FAR := 4096

  // ------------------------------------------------------------ tokens for a text

  predicate Within(t: Token, maxDist: nat) {
    t.Copy? ==> MIN_MATCH <= t.length <= MAX_MATCH && 1 <= t.distance <= maxDist
  }

  // The tokens expand to the first n bytes of the text.
  ghost predicate Spells(ts: seq<Token>, text: seq<byte>, n: nat, maxDist: nat) {
    && n <= |text| && AllReach([], ts) && Expand([], ts) == text[..n]
    && forall t | t in ts :: Within(t, maxDist)
  }

  lemma SpellsLiteral(ts: seq<Token>, text: seq<byte>, n: nat, maxDist: nat)
    requires Spells(ts, text, n, maxDist) && n < |text|
    ensures Spells(ts + [Literal(text[n])], text, n + 1, maxDist)
  {
    hide AllReach, Expand;
    var t := Literal(text[n]);
    ExpandAppend([], ts, t);
    assert text[..n + 1] == ExpandOne(text[..n], t);
    forall u | u in ts + [t] ensures Within(u, maxDist) {}
  }

  lemma SpellsCopy(ts: seq<Token>, text: seq<byte>, n: nat, d: nat, len: nat, maxDist: nat)
    requires Spells(ts, text, n, maxDist) && 1 <= d <= n && d <= maxDist && MIN_MATCH <= len <= MAX_MATCH
    requires IsMatch(text, n, n - d, len)
    ensures Spells(ts + [Copy(len, d)], text, n + len, maxDist)
  {
    ExpandAppend([], ts, Copy(len, d));
    CopyOfMatch(text, n, d, len);
  }

  lemma CopyOfMatch(text: seq<byte>, n: nat, d: nat, len: nat)
    requires 1 <= d <= n && IsMatch(text, n, n - d, len)
    ensures CopyBack(text[..n], len, d) == text[..n + len]
  {
    var t := text[..n + len];
    assert t[..n] == text[..n];
    forall i | n <= i < |t| ensures t[i] == t[i - d] {
      assert text[n..n + len][i - n] == text[n - d..n - d + len][i - n];
    }
    CopyBackIs(text[..n], len, d, t);
  }

  lemma SpellsSpan(ts: seq<Token>, text: seq<byte>, n: nat, maxDist: nat)
    requires Spells(ts, text, n, maxDist)
    ensures Spanned(ts) == n
  {
    ExpandSpans([], ts);
  }

  lemma SpellsMoreText(ts: seq<Token>, text: seq<byte>, n: nat, maxDist: nat, more: seq<byte>)
    requires Spells(ts, text, n, maxDist)
    ensures Spells(ts, text + more, n, maxDist)
  {
    assert (text + more)[..n] == text[..n];
  }

  // ------------------------------------------------------------ the symbol buffer

  // What _tr_tally stores for a token.
  function Stored(t: Token): seq<byte>
    requires Within(t, 65535)
  {
    match t
    case Literal(b) => [0, 0, b]
    case Copy(n, d) => [d % 256, d / 256, n - MIN_MATCH]
  }

  lemma {:induction false} StoredLast(symBuf: seq<byte>, sx: nat, t: Token)
    requires sx <= |symBuf| && (|symBuf| - sx) % 3 == 0 && Within(t, 65535)
    ensures (|symBuf + Stored(t)| - sx) % 3 == 0
    ensures SymbolsFrom(symBuf + Stored(t), sx) == SymbolsFrom(symBuf, sx) + [t]
    decreases |symBuf| - sx
  {
    var all := symBuf + Stored(t);
    if sx == |symBuf| {
      StoredIs(symBuf, t);
      assert SymbolsFrom(all, sx + 3) == [];
    } else {
      assert SymbolAt(all, sx) == SymbolAt(symBuf, sx);
      StoredLast(symBuf, sx + 3, t);
    }
  }

  lemma StoredIs(symBuf: seq<byte>, t: Token)
    requires Within(t, 65535)
    ensures SymbolAt(symBuf + Stored(t), |symBuf|) == t
  {
    var all := symBuf + Stored(t);
    assert all[|symBuf|] == Stored(t)[0] && all[|symBuf| + 1] == Stored(t)[1] && all[|symBuf| + 2] == Stored(t)[2];
  }

  // ------------------------------------------------------------ the state

  function Offset(k: nat, w: nat): nat { k * w }

  lemma Widths(wbits: nat, memLevel: nat)
    requires 9 <= wbits <= 15 && 1 <= memLevel
    ensures 512 <= Pow2(wbits) <= 32768 && 128 <= Pow2(memLevel + 6)
  {
    Pow2Mono(9, wbits);
    Pow2Mono(wbits, 15);
    Pow2Mono(7, memLevel + 6);
    assert Pow2(9) == 512 && Pow2(15) == 32768;
  }

  class Deflater {
    const wsize: nat
    const hashBits: nat
    const window: array<byte>
    const head: array<nat>
    const prev: array<nat>
    var insH: nat
    var strstart: nat
    var lookahead: nat
    var insert: nat
    var matchLength: nat
    var prevLength: nat
    var matchStart: int      // can fall below 0, unused, when the window slides
    var prevMatch: int
    var matchAvailable: bool
    var maxChain: nat        // the search limits of the compression level: any values
    var goodMatch: nat
    var niceMatch: nat
    var maxLazy: nat
    var filtered: bool
    const symEnd: nat        // how much the symbol buffer holds before a block must go out
    var symBuf: seq<byte>
    var input: seq<byte>
    var next: nat
    ghost var text: seq<byte>   // everything read so far
    ghost var base: nat         // where in it the window begins
    ghost var slides: nat       // how often the window slid
    ghost var ins: set<nat>     // text positions of inserted strings
    ghost var bound: nat        // all below this
    ghost var done: seq<Token>  // tokens of finished blocks
    ghost var found: map<nat, Pick>  // what was decided for the strings searched for

    function MaxDist(): (r: nat)
      requires Sizes()
      ensures r == wsize - MIN_LOOKAHEAD
    {
      wsize - MIN_LOOKAHEAD
    }

    predicate Sizes() {
      && 512 <= wsize <= 32768 && 8 <= hashBits <= 16
      && window.Length == 2 * wsize && prev.Length == wsize && head.Length == Pow2(hashBits) && head != prev
    }

    // The window holds the end of the text.
    ghost predicate Aligned()
      reads `text, `base, `slides, window
    {
      && base == Offset(slides, wsize)
      && base <= |text| <= base + window.Length
      && window[..|text| - base] == text[base..]
    }

    ghost predicate Linked()
      requires Sizes()
      reads `text, `base, `ins, `bound, head, prev
    {
      Chains(text, hashBits, ins, bound, base, head[..], prev[..]) && (bound == 0 || bound + 2 <= |text|)
    }

    // The hash key is ready to take in the string at text position a.
    ghost predicate PrimedAt(a: nat)
      reads `insH, `text
    {
      a + 2 <= |text| && Primed(insH, text[a], text[a + 1], hashBits)
    }

    ghost function Tokens(): seq<Token>
      requires |symBuf| % 3 == 0
      reads `symBuf, `done
    {
      done + SymbolsFrom(symBuf, 0)
    }

    // The tokens so far stand for the first n bytes of the text.
    ghost predicate Told(n: nat)
      requires Sizes()
      reads `symBuf, `done, `text
    {
      |symBuf| % 3 == 0 && Spells(Tokens(), text, n, MaxDist())
    }

    // There is room in the symbol buffer, unless it has to be flushed.
    predicate Holds(flush: bool)
      reads `symBuf
    {
      |symBuf| % 3 == 0 && symEnd % 3 == 0 && 0 < symEnd && |symBuf| <= symEnd && (flush <==> |symBuf| == symEnd)
    }

    // The text ends where the lookahead does.
    ghost predicate Ahead()
      reads `text, `base, `strstart, `lookahead
    {
      |text| == base + strstart + lookahead
    }

    // The next string to insert is at text position a, but for those still waiting for
    // input, and the hash key is ready for it as soon as its three bytes are there.
    ghost predicate Keyed(a: nat)
      reads `text, `insert, `insH, `bound
    {
      && insert <= a && bound <= a - insert
      && (a + MIN_MATCH <= |text| ==> insert == 0 && PrimedAt(a))
    }

    ghost predicate Matching()
      requires Sizes()
      reads `text, `base, `slides, `strstart, `lookahead, `insert, `insH, `ins, `bound, window, head, prev
    {
      Aligned() && Linked() && Ahead() && Keyed(base + strstart) && insert <= 2 && insert <= strstart
    }

    constructor (wbits: nat, memLevel: nat, maxChain: nat, goodMatch: nat, niceMatch: nat, maxLazy: nat, filtered: bool)
      requires 9 <= wbits <= 15 && 1 <= memLevel <= 9
      ensures Sizes() && Matching() && Told(0) && text == [] && input == [] && next == 0 && base == 0
      ensures Holds(false) && strstart == lookahead == insert == 0 && matchLength == prevLength == 2 && !matchAvailable
      ensures Tokens() == [] && found == map[]
    {
      hide Pow2;
      Widths(wbits, memLevel);
      wsize := Pow2(wbits);
      hashBits := memLevel + 7;
      window := new byte[2 * Pow2(wbits)](_ => 0);
      head := new nat[Pow2(memLevel + 7)](_ => 0);
      prev := new nat[Pow2(wbits)](_ => 0);
      insH, strstart, lookahead, insert := 0, 0, 0, 0;
      matchLength, prevLength, matchStart, prevMatch, matchAvailable := 2, 2, 0, 0, false;
      this.maxChain, this.goodMatch, this.niceMatch, this.maxLazy, this.filtered := maxChain, goodMatch, niceMatch, maxLazy, filtered;
      symBuf, symEnd := [], (Pow2(memLevel + 6) - 1) * 3;
      input, next := [], 0;
      text, base, slides, ins, bound, done, found := [], 0, 0, {}, 0, [], map[];
      new;
      NoChains(text, hashBits, 0, 0, head[..], prev[..]);
    }

    // _tr_tally_lit and _tr_tally_dist; the result says that the buffer is full.
    method TallyLit(c: byte, ghost n: nat) returns (bflush: bool)
      requires Sizes() && Holds(false) && Told(n) && n < |text| && c == text[n]
      modifies `symBuf
      ensures Holds(bflush) && Told(n + 1) && Tokens() == old(Tokens()) + [Literal(c)]
    {
      ghost var t := Literal(c);
      SpellsLiteral(Tokens(), text, n, MaxDist());
      StoredLast(symBuf, 0, t);
      assert done + (SymbolsFrom(symBuf, 0) + [t]) == Tokens() + [t];
      symBuf := symBuf + [0, 0, c];
      bflush := |symBuf| == symEnd;
    }

    method TallyDist(distance: nat, length: nat, ghost n: nat) returns (bflush: bool)
      requires Sizes() && Holds(false) && Told(n) && length + MIN_MATCH <= MAX_MATCH && 1 <= distance <= MaxDist() && distance <= n
      requires IsMatch(text, n, n - distance, length + MIN_MATCH)
      modifies `symBuf
      ensures Holds(bflush) && Told(n + length + MIN_MATCH) && Tokens() == old(Tokens()) + [Copy(length + MIN_MATCH, distance)]
    {
      hide Spells, IsMatch, SymbolsFrom;
      ghost var t := Copy(length + MIN_MATCH, distance);
      SpellsCopy(Tokens(), text, n, distance, length + MIN_MATCH, MaxDist());
      StoredLast(symBuf, 0, t);
      assert done + (SymbolsFrom(symBuf, 0) + [t]) == Tokens() + [t];
      symBuf := symBuf + [distance % 256, distance / 256, length];
      bflush := |symBuf| == symEnd;
    }

    // FLUSH_BLOCK: the symbols go out as a block, and the buffer starts empty.
    method FlushBlock()
      requires |symBuf| % 3 == 0 && 0 < symEnd && symEnd % 3 == 0
      modifies `symBuf, `done
      ensures Holds(false) && Tokens() == old(Tokens())
    {
      done := Tokens();
      symBuf := [];
    }
  }
}
