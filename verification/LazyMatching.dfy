// deflate_slow and deflate_fast (deps/zlib/deflate.c:1808-2030): whatever the search
// limits, and however input arrives and blocks are flushed, the tokens tallied stand for
// the text read.

module LazyMatching {
  import opened Powers
  import opened Bits
  import opened HashChains
  import opened Tokens
  import opened MatchChoice
  import opened DeflateState
  import opened WindowFeed
  import opened ChainSearch

  // A match of n bytes for the string at text position a, within reach.
  ghost predicate Found(s: Deflater, a: nat, from: int, n: nat)
    requires s.Sizes()
    reads s`text
  {
    0 <= from < a && a - from <= s.MaxDist() && MIN_MATCH <= n <= MAX_MATCH && IsMatch(s.text, a, from, n)
  }

  // The text up to the current string is tallied, but for a byte held back.
  ghost predicate Tallied(s: Deflater)
    requires s.Sizes()
    reads s`symBuf, s`done, s`text, s`base, s`strstart, s`matchAvailable
  {
    if s.matchAvailable then s.strstart >= 1 && s.Told(s.base + s.strstart - 1) else s.Told(s.base + s.strstart)
  }

  // Of a match for the held-back byte's string, if it is one.
  ghost predicate Held(s: Deflater, start: int, n: nat)
    requires s.Sizes()
    reads s`text, s`base, s`strstart, s`matchAvailable
  {
    2 <= n <= MAX_MATCH && (n >= MIN_MATCH ==> s.matchAvailable && s.strstart >= 1 && Found(s, s.base + s.strstart - 1, s.base + start, n))
  }

  // What was decided for the string at a is the match of that length from there.
  predicate Decided(found: map<nat, Pick>, a: int, len: nat, from: int) {
    a >= 0 && a in found && found[a].len == len && (len >= MIN_MATCH ==> found[a].from == from)
  }

  // The tokens are those to adopt, and the match held back is what was decided for its string.
  ghost predicate Settled(s: Deflater)
    requires |s.symBuf| % 3 == 0
    reads s`symBuf, s`done, s`found, s`base, s`strstart, s`matchAvailable, s`matchLength, s`matchStart
  {
    && Chosen(s.Tokens(), s.found, true)
    && (forall a | a in s.found :: a < s.base + s.strstart)
    && (s.matchAvailable ==> Decided(s.found, s.base + s.strstart - 1, s.matchLength, s.base + s.matchStart))
  }

  // In the middle of a round, with the current string searched for.
  ghost predicate Deciding(s: Deflater)
    requires |s.symBuf| % 3 == 0
    reads s`symBuf, s`done, s`found, s`base, s`strstart, s`matchAvailable, s`matchLength, s`matchStart, s`prevLength, s`prevMatch
  {
    && Chosen(s.Tokens(), s.found, true)
    && (forall a | a in s.found :: a <= s.base + s.strstart)
    && Decided(s.found, s.base + s.strstart, s.matchLength, s.base + s.matchStart)
    && (s.matchAvailable ==> Decided(s.found, s.base + s.strstart - 1, s.prevLength, s.base + s.prevMatch))
  }

  // Between rounds: a match of the held-back byte's string may wait for a better one.
  ghost predicate Lazy(s: Deflater)
    reads s, s.window, s.head, s.prev
  {
    && s.Sizes() && s.Matching() && s.next <= |s.input| && Tallied(s) && Held(s, s.matchStart, s.matchLength)
    && Settled(s)
  }

  // In the middle of a round, the current string inserted.
  ghost predicate Placed(s: Deflater)
    requires s.Sizes()
    reads s`text, s`base, s`slides, s`strstart, s`lookahead, s`insert, s`insH, s`ins, s`bound, s.window, s.head, s.prev
  {
    && s.Aligned() && s.Linked() && s.Ahead() && s.Keyed(s.base + s.strstart + 1)
    && s.insert <= 2 && s.insert <= s.strstart && 1 <= s.lookahead
  }

  // The current match is either no better than the one before it, or real.
  ghost predicate Searched(s: Deflater)
    requires s.Sizes()
    reads s`text, s`base, s`strstart, s`matchLength, s`matchStart, s`prevLength
  {
    && 2 <= s.matchLength <= MAX_MATCH
    && (s.matchLength > s.prevLength ==> Found(s, s.base + s.strstart, s.base + s.matchStart, s.matchLength))
  }

  // The string at the current position, put in its chain when its bytes are there.
  method InsertCurrent(s: Deflater) returns (hashHead: nat)
    requires s.Sizes() && s.Matching() && 1 <= s.lookahead
    modifies s`insH, s`ins, s`bound, s.head, s.prev
    ensures Placed(s) && s.bound <= s.base + s.strstart + 1
    ensures hashHead != 0 ==> MIN_MATCH <= s.lookahead && InChain(s, hashHead)
  {
    hide Deflater.Linked, Deflater.PrimedAt, HashAt, Pow2, Offset;
    hashHead := 0;
    if s.lookahead >= MIN_MATCH {
      hashHead := InsertString(s, s.strstart);
    }
  }

  // A search is made when the chain has a string within reach and the match held back is short.
  predicate Worthwhile(s: Deflater, hashHead: nat)
    requires s.Sizes()
    reads s`prevLength, s`maxLazy, s`strstart
  {
    hashHead != 0 && s.prevLength < s.maxLazy && s.strstart - hashHead <= s.MaxDist()
  }

  // A match of n bytes that is not worth its bits.
  predicate TooPoor(s: Deflater, n: nat)
    reads s`filtered, s`strstart, s`matchStart
  {
    n <= 5 && (s.filtered || (n == MIN_MATCH && s.strstart - s.matchStart > TOO_FAR))
  }

  // The current match is the best of the first k strings in the chain, cut to the lookahead, unless
  // it is too poor or no search was made.
  ghost predicate BestOf(s: Deflater, hashHead: nat, best: nat, k: nat)
    requires s.Sizes() && s.strstart + MAX_MATCH <= s.window.Length
    reads s`text, s`base, s`strstart, s`lookahead, s`matchStart, s`matchLength, s`prevLength, s`maxChain, s`goodMatch,
          s`niceMatch, s`maxLazy, s`filtered, s.window, s.prev
  {
    if Worthwhile(s, hashHead) then
      var v := Candidates(s, hashHead);
      var n := if best < s.lookahead then best else s.lookahead;
      LookedAt(s, v, k) && Sofar(s, v[..k], best) && s.matchLength == if TooPoor(s, n) then MIN_MATCH - 1 else n
    else
      s.matchLength == MIN_MATCH - 1
  }

  // Looks for a match longer than the held-back one, if that is not long enough already.
  method Search(s: Deflater, hashHead: nat) returns (ghost best: nat, ghost k: nat)
    requires s.Sizes() && Placed(s) && s.bound <= s.base + s.strstart + 1
    requires hashHead != 0 ==> MIN_MATCH <= s.lookahead && InChain(s, hashHead)
    requires s.strstart + MIN_LOOKAHEAD <= s.window.Length && 2 <= s.prevLength <= MAX_MATCH
    modifies s`matchLength, s`matchStart, s`found
    ensures Searched(s) && s.found == old(s.found)[s.base + s.strstart := Pick(s.matchLength, s.base + s.matchStart)]
    ensures BestOf(s, hashHead, best, k)
  {
    hide Deflater.Linked, Deflater.Aligned, Deflater.Keyed, Pow2, InChain, IsMatch, Sofar, LookedAt, Candidates;
    best, k := 0, 0;
    s.matchLength := MIN_MATCH - 1;
    if hashHead != 0 && s.prevLength < s.maxLazy && s.strstart - hashHead <= s.MaxDist() {
      s.matchLength, best, k := LongestMatch(s, hashHead);
      if s.matchLength <= 5 && (s.filtered || (s.matchLength == MIN_MATCH && s.strstart - s.matchStart > TOO_FAR)) {
        s.matchLength := MIN_MATCH - 1;
      }
    }
    s.found := s.found[s.base + s.strstart := Pick(s.matchLength, s.base + s.matchStart)];
  }

  // ------------------------------------------------------------ the three ends of a round

  // ++strstart, inserting the string there when its bytes are in the text.
  method InsertNext(s: Deflater, maxInsert: nat)
    requires s.Sizes() && s.Aligned() && s.Linked() && s.Keyed(s.base + s.strstart + 1) && s.insert <= 2
    requires s.base + maxInsert + MIN_MATCH == |s.text|
    modifies s`strstart, s`insH, s`ins, s`bound, s.head, s.prev
    ensures s.Linked() && s.Keyed(s.base + s.strstart + 1) && s.strstart == old(s.strstart) + 1
  {
    hide Deflater.Linked, Deflater.Aligned, Deflater.PrimedAt, HashAt, Pow2, Offset;
    s.strstart := s.strstart + 1;
    if s.strstart <= maxInsert {
      var hashHead := InsertString(s, s.strstart);
    }
  }

  // Inserts every string up to the end of the match.
  method InsertThrough(s: Deflater, maxInsert: nat)
    requires s.Sizes() && s.Aligned() && s.Linked() && s.Keyed(s.base + s.strstart + 1) && s.insert <= 2
    requires s.base + maxInsert + MIN_MATCH == |s.text| && 1 <= s.prevLength
    modifies s`strstart, s`prevLength, s`insH, s`ins, s`bound, s.head, s.prev
    ensures s.Linked() && s.Keyed(s.base + s.strstart + 1) && s.strstart == old(s.strstart + s.prevLength)
  {
    hide Deflater.Linked, Deflater.Aligned, Deflater.Keyed, Pow2;
    InsertNext(s, maxInsert);
    s.prevLength := s.prevLength - 1;
    while s.prevLength != 0
      invariant s.Linked() && s.Keyed(s.base + s.strstart + 1) && s.strstart + s.prevLength == old(s.strstart + s.prevLength)
      decreases s.prevLength
    {
      InsertNext(s, maxInsert);
      s.prevLength := s.prevLength - 1;
    }
  }

  // The held-back match is the best: tally it,
  method TallyHeld(s: Deflater) returns (bflush: bool)
    requires s.Sizes() && s.Holds(false) && s.Ahead() && Tallied(s) && Held(s, s.prevMatch, s.prevLength) && MIN_MATCH <= s.prevLength
    modifies s`symBuf
    ensures s.Holds(bflush) && s.matchAvailable && s.strstart >= 1 && s.Told(s.base + s.strstart - 1 + s.prevLength)
    ensures s.Tokens() == old(s.Tokens()) + [Copy(s.prevLength, s.strstart - 1 - s.prevMatch)]
  {
    hide Deflater.Told, Pow2, IsMatch;
    bflush := s.TallyDist(s.strstart - 1 - s.prevMatch, s.prevLength - MIN_MATCH, s.base + s.strstart - 1);
  }

  // The match held back is the one to adopt: none longer was found after it.
  lemma AdoptHeld(s: Deflater)
    requires s.Sizes() && Tallied(s) && Deciding(s) && s.matchAvailable && MIN_MATCH <= s.prevLength
    requires s.matchLength <= s.prevLength && s.strstart >= 1 && s.prevMatch < s.strstart - 1
    ensures Chosen(s.Tokens() + [Copy(s.prevLength, s.strstart - 1 - s.prevMatch)], s.found, true)
  {
    hide Chosen, Spells;
    SpellsSpan(s.Tokens(), s.text, s.base + s.strstart - 1, s.MaxDist());
    ChosenNext(s.Tokens(), Copy(s.prevLength, s.strstart - 1 - s.prevMatch), s.found, true);
  }

  // The byte held back is a literal: it has no match, or one that is shorter than the next.
  lemma AdoptByte(s: Deflater, c: byte)
    requires s.Sizes() && Tallied(s) && Deciding(s) && s.matchAvailable
    requires s.prevLength >= MIN_MATCH ==> s.prevLength < s.matchLength
    ensures Chosen(s.Tokens() + [Literal(c)], s.found, true)
  {
    hide Chosen, Spells;
    SpellsSpan(s.Tokens(), s.text, s.base + s.strstart - 1, s.MaxDist());
    ChosenNext(s.Tokens(), Literal(c), s.found, true);
  }

  // and skip to its end.
  method SkipHeld(s: Deflater)
    requires s.Sizes() && Placed(s) && MIN_MATCH <= s.prevLength && s.prevLength - 1 <= s.lookahead
    requires s.strstart >= 1 && s.Told(s.base + s.strstart - 1 + s.prevLength)
    modifies s`strstart, s`lookahead, s`prevLength, s`matchLength, s`matchAvailable, s`insH, s`ins, s`bound, s.head, s.prev
    ensures s.Matching() && Tallied(s) && Held(s, s.matchStart, s.matchLength) && s.lookahead < old(s.lookahead)
    ensures !s.matchAvailable && s.strstart > old(s.strstart)
  {
    hide Deflater.Linked, Deflater.Aligned, Deflater.Keyed, Deflater.Told, Pow2, Found;
    var maxInsert := s.strstart + s.lookahead - MIN_MATCH;
    s.lookahead := s.lookahead - (s.prevLength - 1);
    s.prevLength := s.prevLength - 2;
    InsertThrough(s, maxInsert);
    s.matchAvailable := false;
    s.matchLength := MIN_MATCH - 1;
    s.strstart := s.strstart + 1;
  }

  method EmitHeld(s: Deflater) returns (bflush: bool)
    requires s.Sizes() && s.Holds(false) && Placed(s) && Tallied(s) && Held(s, s.prevMatch, s.prevLength) && MIN_MATCH <= s.prevLength
    requires Deciding(s) && s.matchLength <= s.prevLength
    modifies s`strstart, s`lookahead, s`prevLength, s`matchLength, s`matchAvailable, s`insH, s`ins, s`bound, s`symBuf,
             s.head, s.prev
    ensures s.Matching() && Tallied(s) && Held(s, s.matchStart, s.matchLength) && s.lookahead < old(s.lookahead)
    ensures s.Holds(bflush) && Settled(s)
  {
    hide Deflater.Matching, Deflater.Linked, Deflater.Aligned, Deflater.Keyed, Deflater.Told, Tallied, Held, Pow2, Chosen;
    HeldFits(s);
    AdoptHeld(s);
    bflush := TallyHeld(s);
    SkipHeld(s);
  }

  lemma HeldFits(s: Deflater)
    requires s.Sizes() && s.Ahead() && Held(s, s.prevMatch, s.prevLength) && MIN_MATCH <= s.prevLength
    ensures s.matchAvailable && s.strstart >= 1 && s.prevLength - 1 <= s.lookahead && s.prevMatch < s.strstart - 1
  {}

  method TallyByte(s: Deflater) returns (bflush: bool)
    requires s.Sizes() && s.Holds(false) && s.Aligned() && s.Ahead() && Tallied(s) && s.matchAvailable
    requires Deciding(s) && (s.prevLength >= MIN_MATCH ==> s.prevLength < s.matchLength)
    modifies s`symBuf
    ensures s.Holds(bflush) && s.Told(s.base + s.strstart) && Chosen(s.Tokens(), s.found, true)
  {
    hide Deflater.Told, Pow2, Offset, Chosen;
    AdoptByte(s, s.window[s.strstart - 1]);
    WindowByte(s, s.strstart - 1);
    bflush := s.TallyLit(s.window[s.strstart - 1], s.base + s.strstart - 1);
  }

  // The current match is better, or there was none: the held-back byte is a literal.
  method EmitByte(s: Deflater) returns (bflush: bool)
    requires s.Sizes() && s.Holds(false) && Placed(s) && Tallied(s) && s.matchAvailable && Searched(s)
    requires s.matchLength >= MIN_MATCH ==> s.prevLength < s.matchLength
    requires Deciding(s) && (s.prevLength >= MIN_MATCH ==> s.prevLength < s.matchLength)
    modifies s`strstart, s`lookahead, s`symBuf
    ensures s.Matching() && Tallied(s) && Held(s, s.matchStart, s.matchLength) && s.lookahead < old(s.lookahead)
    ensures s.Holds(bflush) && Settled(s)
  {
    hide Deflater.Linked, Deflater.Aligned, Deflater.Told, Deflater.PrimedAt, Deflater.Holds, Pow2, Offset, IsMatch, Chosen;
    bflush := TallyByte(s);
    s.strstart := s.strstart + 1;
    s.lookahead := s.lookahead - 1;
  }

  // Nothing to compare with: hold this byte back for a round.
  method HoldByte(s: Deflater)
    requires s.Sizes() && |s.symBuf| % 3 == 0 && Placed(s) && Tallied(s) && !s.matchAvailable && Searched(s) && Deciding(s)
    requires s.matchLength >= MIN_MATCH ==> s.prevLength < s.matchLength
    modifies s`strstart, s`lookahead, s`matchAvailable
    ensures s.Matching() && Tallied(s) && Held(s, s.matchStart, s.matchLength) && s.lookahead < old(s.lookahead)
    ensures Settled(s)
  {
    hide Deflater.Linked, Deflater.Told, Deflater.PrimedAt, Pow2, Offset, IsMatch, Chosen;
    s.matchAvailable := true;
    s.strstart := s.strstart + 1;
    s.lookahead := s.lookahead - 1;
  }

  // ------------------------------------------------------------ rounds

  lemma TextExtends(s: Deflater, ts: seq<Token>, text: seq<byte>, more: seq<byte>, n: nat)
    requires s.Sizes() && Spells(ts, text, n, s.MaxDist())
    ensures Spells(ts, text + more, n, s.MaxDist())
  {
    SpellsMoreText(ts, text, n, s.MaxDist(), more);
  }

  // fill_window disturbs nothing that is held back.
  method Refill(s: Deflater)
    requires Lazy(s) && s.lookahead < MIN_LOOKAHEAD
    modifies s`insH, s`strstart, s`lookahead, s`matchStart, s`insert, s`next, s`text, s`base, s`slides, s`ins, s`bound,
             s.window, s.head, s.prev
    ensures Lazy(s) && s.strstart + MIN_LOOKAHEAD <= s.window.Length
    ensures old(s.next) <= s.next <= |s.input| && s.text == old(s.text) + s.input[old(s.next)..s.next]
    ensures s.lookahead >= MIN_LOOKAHEAD || s.next == |s.input|
    ensures |s.input| - s.next + s.lookahead == |s.input| - old(s.next) + old(s.lookahead)
  {
    hide Deflater.Matching, Pow2, IsMatch, Spells, Chosen;
    ghost var text, ts, n := s.text, s.Tokens(), if s.matchAvailable then s.base + s.strstart - 1 else s.base + s.strstart;
    ghost var at, from, len := s.base + s.strstart - 1, s.base + s.matchStart, s.matchLength;
    FillWindow(s);
    ghost var more := s.input[old(s.next)..s.next];
    TextExtends(s, ts, text, more, n);
    if len >= MIN_MATCH { MatchMoreText(text, at, from, len, more); }
  }

  // What was found last is held back while the current string is searched for.
  method SearchNext(s: Deflater, hashHead: nat)
    requires s.Sizes() && Placed(s) && s.bound <= s.base + s.strstart + 1
    requires hashHead != 0 ==> MIN_MATCH <= s.lookahead && InChain(s, hashHead)
    requires s.strstart + MIN_LOOKAHEAD <= s.window.Length
    requires |s.symBuf| % 3 == 0 && Settled(s) && Held(s, s.matchStart, s.matchLength)
    modifies s`matchLength, s`matchStart, s`prevLength, s`prevMatch, s`found
    ensures Searched(s) && Deciding(s) && Held(s, s.prevMatch, s.prevLength)
  {
    hide Placed, InChain, Searched, Chosen, BestOf, Found, Deflater.Tokens, Pow2;
    s.prevLength, s.prevMatch := s.matchLength, s.matchStart;
    ghost var found := s.found;
    ghost var best, k := Search(s, hashHead);
    ChosenStays(s.Tokens(), found, true, s.base + s.strstart, Pick(s.matchLength, s.base + s.matchStart));
  }

  // One string: insert it, search, and settle what was held back.
  method Round(s: Deflater) returns (bflush: bool, roomChecked: bool)
    requires Lazy(s) && s.Holds(false) && 1 <= s.lookahead && s.strstart + MIN_LOOKAHEAD <= s.window.Length
    modifies s`strstart, s`lookahead, s`matchLength, s`matchStart, s`prevLength, s`prevMatch, s`matchAvailable,
             s`insH, s`ins, s`bound, s`symBuf, s`found, s.head, s.prev
    ensures Lazy(s) && s.Holds(bflush) && s.lookahead < old(s.lookahead)
  {
    hide Placed, Deciding, Settled, Deflater.Matching, Deflater.Told, Tallied, Found, Pow2;
    var hashHead := InsertCurrent(s);
    SearchNext(s, hashHead);
    if s.prevLength >= MIN_MATCH && s.matchLength <= s.prevLength {
      bflush := EmitHeld(s);
      roomChecked := bflush;
    } else if s.matchAvailable {
      bflush := EmitByte(s);
      roomChecked := true;
    } else {
      HoldByte(s);
      bflush, roomChecked := false, false;
    }
  }

  // Compresses what input there is; without a flush it keeps some lookahead back. It may
  // return at any block end or literal for want of output room.
  method DeflateSlow(s: Deflater, noFlush: bool) returns (finished: bool)
    requires Lazy(s) && s.Holds(false)
    modifies s, s.window, s.head, s.prev
    ensures Lazy(s) && s.Holds(false) && s.input == old(s.input) && old(s.next) <= s.next
    ensures s.text == old(s.text) + s.input[old(s.next)..s.next]
    ensures finished ==> !noFlush && s.next == |s.input| && !s.matchAvailable && s.Told(|s.text|)
  {
    hide Lazy, Deflater.Matching, Deflater.Sizes, Deflater.Holds, Held, Spells, Pow2, Settled;
    InputLeft(s);
    while true
      invariant Lazy(s) && s.Holds(false) && s.input == old(s.input) && old(s.next) <= s.next <= |s.input|
      invariant s.text == old(s.text) + s.input[old(s.next)..s.next]
      decreases |s.input| - s.next + s.lookahead
    {
      if s.lookahead < MIN_LOOKAHEAD {
        ghost var next := s.next;
        Refill(s);
        Appended(s.input, old(s.text), old(s.next), next, s.next);
        if s.lookahead < MIN_LOOKAHEAD && noFlush { return false; }
        if s.lookahead == 0 { break; }
      } else {
        LazyRoom(s);
      }
      var bflush, roomChecked := Round(s);
      if bflush { LazyFlush(s, bflush); }
      var full: bool := *; // no room for more output
      if roomChecked && full { return false; }
    }
    Finish(s);
    finished := true;
  }

  lemma InputLeft(s: Deflater)
    requires Lazy(s)
    ensures s.next <= |s.input|
  {}

  lemma LazyRoom(s: Deflater)
    requires Lazy(s) && s.lookahead >= MIN_LOOKAHEAD
    ensures s.strstart + MIN_LOOKAHEAD <= s.window.Length
  {
    RoomAhead(s);
  }

  method LazyFlush(s: Deflater, ghost flush: bool)
    requires Lazy(s) && s.Holds(flush)
    modifies s`symBuf, s`done
    ensures Lazy(s) && s.Holds(false)
  {
    hide Deflater.Matching, Held, Spells, Pow2, Chosen;
    s.FlushBlock();
  }

  lemma RoomAhead(s: Deflater)
    requires s.Sizes() && s.Matching() && s.lookahead >= MIN_LOOKAHEAD
    ensures s.strstart + MIN_LOOKAHEAD <= s.window.Length
  {}

  // The last byte has no match.
  lemma LastHasNone(s: Deflater)
    requires Lazy(s) && s.lookahead == 0 && s.matchAvailable
    ensures s.matchLength < MIN_MATCH && s.strstart >= 1
    ensures forall c: byte :: Chosen(s.Tokens() + [Literal(c)], s.found, true)
  {
    hide Chosen, Spells;
    SpellsSpan(s.Tokens(), s.text, s.base + s.strstart - 1, s.MaxDist());
    forall c: byte ensures Chosen(s.Tokens() + [Literal(c)], s.found, true) {
      ChosenNext(s.Tokens(), Literal(c), s.found, true);
    }
  }

  // The byte held back when the input ends.
  method TellLast(s: Deflater) returns (ghost full: bool)
    requires Lazy(s) && s.Holds(false) && s.lookahead == 0
    modifies s`matchAvailable, s`symBuf
    ensures Lazy(s) && !s.matchAvailable && s.Told(|s.text|) && s.Holds(full)
  {
    hide Deflater.Linked, Deflater.Keyed, Deflater.Told, Pow2, Offset, Chosen;
    full := false;
    if s.matchAvailable {
      LastHasNone(s);
      WindowByte(s, s.strstart - 1);
      var bflush := s.TallyLit(s.window[s.strstart - 1], s.base + s.strstart - 1);
      full := bflush;
      s.matchAvailable := false;
    }
  }

  // The last strings have to wait for the bytes after them.
  method Park(s: Deflater)
    requires Lazy(s) && s.lookahead == 0
    modifies s`insert
    ensures Lazy(s)
  {
    hide Deflater.Told, Deflater.Aligned, Held, Chains, Pow2;
    s.insert := if s.strstart < MIN_MATCH - 1 then s.strstart else MIN_MATCH - 1;
  }

  method Finish(s: Deflater)
    requires Lazy(s) && s.Holds(false) && s.lookahead == 0
    modifies s`matchAvailable, s`insert, s`symBuf, s`done
    ensures Lazy(s) && s.Holds(false) && !s.matchAvailable && s.Told(|s.text|)
  {
    hide Deflater.Matching, Held, Spells, Pow2, Chosen;
    ghost var full := TellLast(s);
    Park(s);
    if |s.symBuf| != 0 { s.FlushBlock(); }
  }
}
