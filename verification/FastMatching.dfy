// deflate_fast (deps/zlib/deflate.c:1808-1904): the first match is taken as it comes, and
// long matches are not inserted. The tokens stand for the text all the same.

module FastMatching {
  import opened Powers
  import opened StringHash
  import opened HashChains
  import opened Tokens
  import opened MatchChoice
  import opened DeflateState
  import opened WindowFeed
  import opened ChainSearch
  import opened LazyMatching

  ghost predicate Eager(s: Deflater)
    reads s, s.window, s.head, s.prev
  {
    && s.Sizes() && s.Matching() && s.next <= |s.input| && s.Told(s.base + s.strstart)
    && s.matchLength < MIN_MATCH && s.prevLength == MIN_MATCH - 1
    && Taken(s)
  }

  // The tokens are the matches found, where there is one.
  ghost predicate Taken(s: Deflater)
    requires |s.symBuf| % 3 == 0
    reads s`symBuf, s`done, s`found, s`base, s`strstart
  {
    Chosen(s.Tokens(), s.found, false) && forall a | a in s.found :: a < s.base + s.strstart
  }

  // Besides, the current string has been searched for.
  ghost predicate Picked(s: Deflater)
    requires |s.symBuf| % 3 == 0
    reads s`symBuf, s`done, s`found, s`base, s`strstart, s`matchLength, s`matchStart
  {
    && Chosen(s.Tokens(), s.found, false) && (forall a | a in s.found :: a <= s.base + s.strstart)
    && s.base + s.strstart in s.found && s.found[s.base + s.strstart] == Pick(s.matchLength, s.base + s.matchStart)
  }

  // The next token is the match found, or a literal when there is none.
  lemma TakeNext(s: Deflater, t: Token)
    requires s.Sizes() && s.Told(s.base + s.strstart) && Picked(s)
    requires if s.matchLength >= MIN_MATCH then s.matchStart < s.strstart && t == Copy(s.matchLength, s.strstart - s.matchStart) else t.Literal?
    ensures Chosen(s.Tokens() + [t], s.found, false)
  {
    hide Chosen, Spells;
    SpellsSpan(s.Tokens(), s.text, s.base + s.strstart, s.MaxDist());
    ChosenNext(s.Tokens(), t, s.found, false);
  }

  // A match at the current string, if matchLength says there is one.
  ghost predicate Matched(s: Deflater)
    requires s.Sizes()
    reads s`text, s`base, s`strstart, s`matchLength, s`matchStart
  {
    s.matchLength >= MIN_MATCH ==> Found(s, s.base + s.strstart, s.base + s.matchStart, s.matchLength)
  }

  // The longest of the strings looked at, when there is one within reach.
  method EagerSearch(s: Deflater, hashHead: nat) returns (ghost best: nat, ghost k: nat)
    requires s.Sizes() && Placed(s) && s.bound <= s.base + s.strstart + 1
    requires hashHead != 0 ==> MIN_MATCH <= s.lookahead && InChain(s, hashHead)
    requires s.strstart + MIN_LOOKAHEAD <= s.window.Length && s.prevLength == MIN_MATCH - 1 && s.matchLength < MIN_MATCH
    modifies s`matchLength, s`matchStart, s`found
    ensures Matched(s) && s.found == old(s.found)[s.base + s.strstart := Pick(s.matchLength, s.base + s.matchStart)]
    ensures hashHead == 0 || s.strstart - hashHead > s.MaxDist() ==> s.matchLength < MIN_MATCH
    ensures hashHead != 0 && s.strstart - hashHead <= s.MaxDist() ==>
            var v := Candidates(s, hashHead);
            && LookedAt(s, v, k) && Sofar(s, v[..k], best)
            && s.matchLength == if best < s.lookahead then best else s.lookahead
  {
    hide Deflater.Linked, Deflater.Aligned, Deflater.Keyed, Pow2, InChain, IsMatch, Sofar, LookedAt, Candidates;
    best, k := 0, 0;
    if hashHead != 0 && s.strstart - hashHead <= s.MaxDist() {
      s.matchLength, best, k := LongestMatch(s, hashHead);
    }
    s.found := s.found[s.base + s.strstart := Pick(s.matchLength, s.base + s.matchStart)];
  }

  // ++strstart and INSERT_STRING, when the bytes are known to be there.
  method InsertAll(s: Deflater)
    requires s.Sizes() && s.Aligned() && s.Linked() && s.Keyed(s.base + s.strstart + 1) && s.insert <= 2
    requires 1 <= s.matchLength && s.base + s.strstart + s.matchLength + MIN_MATCH <= |s.text|
    modifies s`strstart, s`matchLength, s`insH, s`ins, s`bound, s.head, s.prev
    ensures s.Linked() && s.Keyed(s.base + s.strstart + 1) && s.strstart == old(s.strstart + s.matchLength)
    ensures s.matchLength == 0
  {
    hide Deflater.Linked, Deflater.Aligned, Deflater.Keyed, Pow2;
    InsertHere(s);
    s.matchLength := s.matchLength - 1;
    while s.matchLength != 0
      invariant s.Linked() && s.Keyed(s.base + s.strstart + 1) && s.strstart + s.matchLength == old(s.strstart + s.matchLength)
      decreases s.matchLength
    {
      InsertHere(s);
      s.matchLength := s.matchLength - 1;
    }
  }

  method InsertHere(s: Deflater)
    requires s.Sizes() && s.Aligned() && s.Linked() && s.Keyed(s.base + s.strstart + 1) && s.insert <= 2
    requires s.base + s.strstart + 1 + MIN_MATCH <= |s.text|
    modifies s`strstart, s`insH, s`ins, s`bound, s.head, s.prev
    ensures s.Linked() && s.Keyed(s.base + s.strstart + 1) && s.strstart == old(s.strstart) + 1
  {
    hide Deflater.Linked, Deflater.Aligned, Deflater.PrimedAt, HashAt, Pow2, Offset;
    s.strstart := s.strstart + 1;
    var hashHead := InsertString(s, s.strstart);
  }

  // Goes past the match without inserting it, and starts the hash key afresh.
  method SkipMatch(s: Deflater)
    requires s.Sizes() && s.Aligned() && s.Keyed(s.base + s.strstart + 1) && MIN_MATCH <= s.matchLength
    requires s.strstart + s.matchLength + 1 < s.window.Length
    requires s.base + s.strstart + MIN_MATCH <= |s.text| ==> s.insert == 0
    requires s.base + s.strstart + s.matchLength <= |s.text|
    modifies s`strstart, s`matchLength, s`insH
    ensures s.Keyed(s.base + s.strstart) && s.strstart == old(s.strstart + s.matchLength) && s.matchLength == 0
  {
    hide Primed, UpdateHash, Pow2, Offset;
    s.strstart := s.strstart + s.matchLength;
    s.matchLength := 0;
    s.insH := s.window[s.strstart];
    s.insH := UpdateHash(s.insH, s.window[s.strstart + 1], s.hashBits);
    StartsPrimed(s.window[s.strstart], s.window[s.strstart + 1], s.hashBits);
    if s.base + s.strstart + MIN_MATCH <= |s.text| {
      WindowByte(s, s.strstart);
      WindowByte(s, s.strstart + 1);
    }
  }

  method TallyMatch(s: Deflater) returns (bflush: bool)
    requires s.Sizes() && s.Holds(false) && s.Ahead() && s.Told(s.base + s.strstart) && Picked(s)
    requires Matched(s) && MIN_MATCH <= s.matchLength
    modifies s`symBuf
    ensures s.Holds(bflush) && s.Told(s.base + s.strstart + s.matchLength) && Chosen(s.Tokens(), s.found, false)
  {
    hide Deflater.Told, Chosen, IsMatch, Pow2;
    MatchFits(s);
    TakeNext(s, Copy(s.matchLength, s.strstart - s.matchStart));
    bflush := s.TallyDist(s.strstart - s.matchStart, s.matchLength - MIN_MATCH, s.base + s.strstart);
  }

  method EmitMatch(s: Deflater) returns (bflush: bool)
    requires s.Sizes() && s.Holds(false) && Placed(s) && s.Told(s.base + s.strstart) && Matched(s) && MIN_MATCH <= s.matchLength
    requires s.strstart + MIN_LOOKAHEAD <= s.window.Length && (MIN_MATCH <= s.lookahead ==> s.insert == 0) && Picked(s)
    modifies s`strstart, s`lookahead, s`matchLength, s`insH, s`ins, s`bound, s`symBuf, s.head, s.prev
    ensures s.Matching() && s.Told(s.base + s.strstart) && s.matchLength < MIN_MATCH && s.lookahead < old(s.lookahead)
    ensures s.Holds(bflush) && Taken(s)
  {
    hide Deflater.Matching, Deflater.Aligned, Deflater.Linked, Deflater.Keyed, Deflater.Told, Deflater.Holds, Pow2, Chosen, Matched;
    MatchFits(s);
    bflush := TallyMatch(s);
    PassMatch(s);
  }

  // Goes past the match, with its strings inserted when it is short.
  method PassMatch(s: Deflater)
    requires s.Sizes() && Placed(s) && MIN_MATCH <= s.matchLength <= s.lookahead && s.matchLength <= MAX_MATCH
    requires s.strstart + MIN_LOOKAHEAD <= s.window.Length && (MIN_MATCH <= s.lookahead ==> s.insert == 0)
    modifies s`strstart, s`lookahead, s`matchLength, s`insH, s`ins, s`bound, s.head, s.prev
    ensures s.Matching() && s.matchLength == 0 && s.strstart == old(s.strstart + s.matchLength) && s.lookahead < old(s.lookahead)
  {
    hide Deflater.Linked, Deflater.Aligned, Deflater.Keyed, Pow2;
    s.lookahead := s.lookahead - s.matchLength;
    if s.matchLength <= s.maxLazy && s.lookahead >= MIN_MATCH {
      s.matchLength := s.matchLength - 1;
      InsertAll(s);
      s.strstart := s.strstart + 1;
    } else {
      SkipMatch(s);
    }
  }

  lemma MatchFits(s: Deflater)
    requires s.Sizes() && s.Ahead() && Matched(s) && MIN_MATCH <= s.matchLength
    ensures s.matchLength <= s.lookahead && s.matchLength <= MAX_MATCH && s.matchStart < s.strstart
  {}

  method EmitLiteral(s: Deflater) returns (bflush: bool)
    requires s.Sizes() && s.Holds(false) && Placed(s) && s.Told(s.base + s.strstart) && Picked(s) && s.matchLength < MIN_MATCH
    modifies s`strstart, s`lookahead, s`symBuf
    ensures s.Holds(bflush) && s.Matching() && s.Told(s.base + s.strstart) && s.lookahead < old(s.lookahead) && Taken(s)
  {
    hide Deflater.Linked, Deflater.Told, Deflater.PrimedAt, Pow2, Offset, Chosen;
    TakeNext(s, Literal(s.window[s.strstart]));
    WindowByte(s, s.strstart);
    bflush := s.TallyLit(s.window[s.strstart], s.base + s.strstart);
    s.lookahead := s.lookahead - 1;
    s.strstart := s.strstart + 1;
  }

  method FastRefill(s: Deflater)
    requires Eager(s) && s.lookahead < MIN_LOOKAHEAD
    modifies s`insH, s`strstart, s`lookahead, s`matchStart, s`insert, s`next, s`text, s`base, s`slides, s`ins, s`bound,
             s.window, s.head, s.prev
    ensures Eager(s) && s.strstart + MIN_LOOKAHEAD <= s.window.Length
    ensures old(s.next) <= s.next <= |s.input| && s.text == old(s.text) + s.input[old(s.next)..s.next]
    ensures s.lookahead >= MIN_LOOKAHEAD || s.next == |s.input|
    ensures |s.input| - s.next + s.lookahead == |s.input| - old(s.next) + old(s.lookahead)
  {
    hide Deflater.Matching, Pow2, IsMatch, Spells, Chosen;
    ghost var text, ts, n := s.text, s.Tokens(), s.base + s.strstart;
    FillWindow(s);
    TextExtends(s, ts, text, s.input[old(s.next)..s.next], n);
  }

  method EagerPick(s: Deflater, hashHead: nat)
    requires s.Sizes() && Placed(s) && s.bound <= s.base + s.strstart + 1
    requires hashHead != 0 ==> MIN_MATCH <= s.lookahead && InChain(s, hashHead)
    requires s.strstart + MIN_LOOKAHEAD <= s.window.Length && s.prevLength == MIN_MATCH - 1 && s.matchLength < MIN_MATCH
    requires |s.symBuf| % 3 == 0 && Taken(s)
    modifies s`matchLength, s`matchStart, s`found
    ensures Matched(s) && Picked(s)
  {
    hide Placed, Matched, InChain, Chosen, Sofar, LookedAt, Candidates, Pow2;
    ghost var found := s.found;
    ghost var best, k := EagerSearch(s, hashHead);
    ChosenStays(s.Tokens(), found, false, s.base + s.strstart, Pick(s.matchLength, s.base + s.matchStart));
  }

  method FastRound(s: Deflater) returns (bflush: bool)
    requires Eager(s) && s.Holds(false) && 1 <= s.lookahead && s.strstart + MIN_LOOKAHEAD <= s.window.Length
    modifies s`strstart, s`lookahead, s`matchLength, s`matchStart, s`insH, s`ins, s`bound, s`symBuf, s`found, s.head, s.prev
    ensures Eager(s) && s.Holds(bflush) && s.lookahead < old(s.lookahead)
  {
    hide Placed, Matched, Picked, Taken, Deflater.Aligned, Deflater.Linked, Deflater.Keyed, Deflater.Told, Found, Pow2;
    NoneWait(s);
    var hashHead := InsertCurrent(s);
    EagerPick(s, hashHead);
    if s.matchLength >= MIN_MATCH {
      bflush := EmitMatch(s);
    } else {
      bflush := EmitLiteral(s);
    }
  }

  lemma NoneWait(s: Deflater)
    requires s.Sizes() && s.Matching()
    ensures MIN_MATCH <= s.lookahead ==> s.insert == 0
  {}

  method DeflateFast(s: Deflater, noFlush: bool) returns (finished: bool)
    requires Eager(s) && s.Holds(false)
    modifies s, s.window, s.head, s.prev
    ensures Eager(s) && s.Holds(false) && s.input == old(s.input) && old(s.next) <= s.next
    ensures s.text == old(s.text) + s.input[old(s.next)..s.next]
    ensures finished ==> !noFlush && s.next == |s.input| && s.Told(|s.text|)
  {
    hide Eager, Deflater.Matching, Deflater.Sizes, Deflater.Holds, Spells, Pow2;
    InputAhead(s);
    while true
      invariant Eager(s) && s.Holds(false) && s.input == old(s.input) && old(s.next) <= s.next <= |s.input|
      invariant s.text == old(s.text) + s.input[old(s.next)..s.next]
      decreases |s.input| - s.next + s.lookahead
    {
      if s.lookahead < MIN_LOOKAHEAD {
        ghost var next := s.next;
        FastRefill(s);
        Appended(s.input, old(s.text), old(s.next), next, s.next);
        if s.lookahead < MIN_LOOKAHEAD && noFlush { return false; }
        if s.lookahead == 0 { break; }
      } else {
        EagerRoom(s);
      }
      var bflush := FastRound(s);
      var full: bool := *; // no room for more output
      if bflush {
        EagerFlush(s, bflush);
        if full { return false; }
      }
    }
    FastFinish(s);
    finished := true;
  }

  method FastFinish(s: Deflater)
    requires Eager(s) && s.Holds(false) && s.lookahead == 0
    modifies s`insert, s`symBuf, s`done
    ensures Eager(s) && s.Holds(false) && s.Told(|s.text|)
  {
    hide Deflater.Matching, Spells, Pow2, Chosen;
    FastPark(s);
    if |s.symBuf| != 0 { s.FlushBlock(); }
  }

  lemma InputAhead(s: Deflater)
    requires Eager(s)
    ensures s.next <= |s.input|
  {}

  lemma EagerRoom(s: Deflater)
    requires Eager(s) && s.lookahead >= MIN_LOOKAHEAD
    ensures s.strstart + MIN_LOOKAHEAD <= s.window.Length
  {
    RoomAhead(s);
  }

  method EagerFlush(s: Deflater, ghost flush: bool)
    requires Eager(s) && s.Holds(flush)
    modifies s`symBuf, s`done
    ensures Eager(s) && s.Holds(false)
  {
    hide Deflater.Matching, Spells, Pow2, Chosen;
    s.FlushBlock();
  }

  method FastPark(s: Deflater)
    requires Eager(s) && s.lookahead == 0
    modifies s`insert
    ensures Eager(s) && s.base + s.strstart == |s.text|
  {
    hide Deflater.Told, Deflater.Aligned, Chains, Pow2;
    s.insert := if s.strstart < MIN_MATCH - 1 then s.strstart else MIN_MATCH - 1;
  }
}
