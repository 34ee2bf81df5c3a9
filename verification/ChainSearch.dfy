// longest_match (deps/zlib/deflate.c:1348-1489): following a hash chain for the longest
// string that matches the current one, whatever the search limits. Its quick tests only
// ever pass over strings that are no better than the best so far.

module ChainSearch {
  import opened Powers
  import opened Bits
  import opened HashChains
  import opened Tokens
  import opened DeflateState
  import opened WindowFeed

  // A string in the chain of the current one, at window position p.
  ghost predicate InChain(s: Deflater, p: nat)
    reads s`text, s`base, s`ins, s`strstart
  {
    && s.base + s.strstart + MIN_MATCH <= |s.text| && p < s.strstart
    && InsertedAs(s.text, s.hashBits, s.ins, s.base + p, HashAt(s.text, s.base + s.strstart, s.hashBits))
  }

  // How many bytes of the window from a and from b on agree, of the first n.
  ghost function Agree(w: seq<byte>, a: nat, b: nat, n: nat): (k: nat)
    requires a + n <= |w| && b + n <= |w|
    ensures k <= n
    decreases n
  {
    if n == 0 || w[a] != w[b] then 0 else 1 + Agree(w, a + 1, b + 1, n - 1)
  }

  lemma {:induction false} AgreeAt(w: seq<byte>, a: nat, b: nat, n: nat, k: nat)
    requires a + n <= |w| && b + n <= |w| && k < n && w[a + k] != w[b + k]
    ensures Agree(w, a, b, n) <= k
    decreases n
  {
    if k > 0 && w[a] == w[b] { AgreeAt(w, a + 1, b + 1, n - 1, k - 1); }
  }

  lemma {:induction false} AgreeAll(w: seq<byte>, a: nat, b: nat, n: nat, k: nat)
    requires a + n <= |w| && b + n <= |w| && k <= n && w[a..a + k] == w[b..b + k]
    ensures Agree(w, a, b, n) >= k
    decreases n
  {
    if k > 0 {
      assert w[a] == w[a..a + k][0] == w[b..b + k][0] == w[b];
      assert w[a + 1..a + k] == w[a..a + k][1..] && w[b + 1..b + k] == w[b..b + k][1..];
      AgreeAll(w, a + 1, b + 1, n - 1, k - 1);
    }
  }

  lemma AgreeIs(w: seq<byte>, a: nat, b: nat, n: nat, k: nat)
    requires a + n <= |w| && b + n <= |w| && k <= n && w[a..a + k] == w[b..b + k]
    requires k == n || w[a + k] != w[b + k]
    ensures Agree(w, a, b, n) == k
  {
    AgreeAll(w, a, b, n, k);
    if k < n { AgreeAt(w, a, b, n, k); }
  }

  // How many bytes agree, up to the limit of a match; the third is not compared. The
  // source unrolls this loop eight times.
  method CommonLength(s: Deflater, scan: nat, match_: nat) returns (len: nat)
    requires match_ < scan && scan + MAX_MATCH < s.window.Length
    requires s.window[scan] == s.window[match_] && s.window[scan + 1] == s.window[match_ + 1]
    requires s.window[scan + 2] == s.window[match_ + 2]
    ensures MIN_MATCH <= len <= MAX_MATCH && s.window[scan..scan + len] == s.window[match_..match_ + len]
    ensures len == MAX_MATCH || s.window[scan + len] != s.window[match_ + len]
  {
    len := 3;
    while len < MAX_MATCH && s.window[scan + len] == s.window[match_ + len]
      invariant MIN_MATCH <= len <= MAX_MATCH && s.window[scan..scan + len] == s.window[match_..match_ + len]
    {
      len := len + 1;
    }
  }

  // Agreement in the window, as far as the lookahead goes, is a match of the text.
  lemma WindowMatch(win: seq<byte>, text: seq<byte>, base: nat, scan: nat, match_: nat, len: nat, n: nat)
    requires base <= |text| <= base + |win| && win[..|text| - base] == text[base..]
    requires match_ < scan && scan + len <= |win| && win[scan..scan + len] == win[match_..match_ + len]
    requires n <= len && base + scan + n <= |text|
    ensures IsMatch(text, base + scan, base + match_, n)
  {
    WindowPart(win, text, base, scan, n);
    WindowPart(win, text, base, match_, n);
    ShorterSlice(win, scan, len, n);
    ShorterSlice(win, match_, len, n);
  }

  lemma WindowPart(win: seq<byte>, text: seq<byte>, base: nat, p: nat, n: nat)
    requires base <= |text| <= base + |win| && win[..|text| - base] == text[base..] && base + p + n <= |text|
    ensures win[p..p + n] == text[base + p..base + p + n]
  {
    SliceOfTake(win, |text| - base, p, p + n);
    SliceOfDrop(text, base, p, p + n);
  }

  // What the search has found: a match longer than what it was asked to beat.
  ghost predicate Better(s: Deflater, len: nat)
    reads s`text, s`base, s`strstart, s`lookahead, s`matchStart
  {
    && s.base + s.strstart + s.lookahead == |s.text| && 0 <= s.matchStart < s.strstart
    && s.strstart - s.matchStart <= s.wsize - MIN_LOOKAHEAD
    && IsMatch(s.text, s.base + s.strstart, s.base + s.matchStart, if len < s.lookahead then len else s.lookahead)
  }

  // Looks at one string of the chain: is it longer? Two bytes where the best match ends and
  // two at the start tell most strings that are not.
  method TryMatch(s: Deflater, cur: nat, best: nat) returns (len: nat)
    requires s.Sizes() && s.Aligned() && s.Ahead() && InChain(s, cur)
    requires s.strstart + MIN_LOOKAHEAD <= s.window.Length && 1 <= best <= MAX_MATCH
    ensures len == 0 || MIN_MATCH <= len <= MAX_MATCH
    ensures len > 0 && s.strstart - cur <= s.MaxDist() ==>
      IsMatch(s.text, s.base + s.strstart, s.base + cur, if len < s.lookahead then len else s.lookahead)
    ensures len > 0 ==> len == Agree(s.window[..], s.strstart, cur, MAX_MATCH)
    ensures len == 0 ==> Agree(s.window[..], s.strstart, cur, MAX_MATCH) <= best
  {
    hide Pow2, Offset, HashAt, IsMatch, Agree, InsertedAs;
    var scan := s.strstart;
    if s.window[cur + best] != s.window[scan + best] || s.window[cur + best - 1] != s.window[scan + best - 1]
       || s.window[cur] != s.window[scan] || s.window[cur + 1] != s.window[scan + 1] {
      Passed(s.window[..], scan, cur, best);
      return 0;
    }
    Third(s, cur);
    len := CommonLength(s, scan, cur);
    AgreeIs(s.window[..], scan, cur, MAX_MATCH, len);
    WindowMatch(s.window[..], s.text, s.base, scan, cur, len, if len < s.lookahead then len else s.lookahead);
  }

  // A string that fails a quick test is no better than the best so far.
  lemma Passed(w: seq<byte>, scan: nat, cur: nat, best: nat)
    requires scan + MAX_MATCH < |w| && cur + MAX_MATCH < |w| && 1 <= best <= MAX_MATCH
    requires w[cur + best] != w[scan + best] || w[cur + best - 1] != w[scan + best - 1] || w[cur] != w[scan] || w[cur + 1] != w[scan + 1]
    ensures Agree(w, scan, cur, MAX_MATCH) <= best
  {
    hide Agree;
    if best < MAX_MATCH {
      var k := if w[cur + best] != w[scan + best] then best
               else if w[cur + best - 1] != w[scan + best - 1] then best - 1
               else if w[cur] != w[scan] then 0 else 1;
      AgreeAt(w, scan, cur, MAX_MATCH, k);
    }
  }

  lemma Third(s: Deflater, cur: nat)
    requires s.Sizes() && s.Aligned() && InChain(s, cur)
    requires cur + 2 < s.window.Length && s.strstart + 2 < s.window.Length
    requires s.window[cur] == s.window[s.strstart] && s.window[cur + 1] == s.window[s.strstart + 1]
    ensures s.window[s.strstart + 2] == s.window[cur + 2]
  {
    hide Pow2, Offset, HashAt;
    var a, b := s.base + s.strstart, s.base + cur;
    WindowByte(s, cur);
    WindowByte(s, cur + 1);
    WindowByte(s, cur + 2);
    WindowByte(s, s.strstart);
    WindowByte(s, s.strstart + 1);
    WindowByte(s, s.strstart + 2);
    ChainThird(s.text, s.hashBits, s.ins, a, b);
    assert s.text[a..a + 3][2] == s.text[b..b + 3][2];
  }

  // The next string of the chain, when it is near enough to matter.
  method NextInChain(s: Deflater, cur: nat) returns (next: nat)
    requires s.Sizes() && s.Linked() && s.base == Offset(s.slides, s.wsize) && InChain(s, cur)
    requires s.strstart - cur <= s.MaxDist() && s.bound <= s.base + s.strstart + 1
    ensures next == s.prev[cur % s.wsize] && (next != 0 ==> next < cur && InChain(s, next))
  {
    hide Pow2, Offset, HashAt, Slot;
    next := s.prev[cur % s.wsize];
    SlotOf(cur, s.slides, s.wsize);
    assert LinkOk(s.text, s.hashBits, s.ins, s.base, s.base + cur, s.prev[..][Slot(s.base + cur, s.wsize)]);
  }

  // The limit on the number of strings is unsigned: 0 stands for 2^32.
  function OneFewer(chain: nat): nat { if chain == 0 then 0xFFFFFFFF else chain - 1 }

  // The strings of the chain from cur on, nearest first: as many as may be looked at, and
  // none as far back as the limit.
  ghost function Chain(prev: seq<nat>, limit: nat, cur: nat, chain: nat): (v: seq<nat>)
    requires |prev| > 0
    ensures v != [] && v[0] == cur
    decreases cur
  {
    var next := prev[cur % |prev|];
    if limit < next < cur && OneFewer(chain) != 0 then [cur] + Chain(prev, limit, next, OneFewer(chain)) else [cur]
  }

  // The search over the strings v: best is the longest agreement among them, if longer than
  // what was to be beaten, and start is the nearest string that has it.
  ghost predicate Longest(w: seq<byte>, scan: nat, v: seq<nat>, beat: nat, best: nat, start: int)
    requires scan + MAX_MATCH <= |w|
  {
    && beat <= best
    && (forall i | 0 <= i < |v| :: v[i] < scan && Agree(w, scan, v[i], MAX_MATCH) <= best)
    && (best > beat ==> exists i | 0 <= i < |v| ::
          start == v[i] && Agree(w, scan, v[i], MAX_MATCH) == best
          && forall j | 0 <= j < i :: Agree(w, scan, v[j], MAX_MATCH) < best)
  }

  lemma LongestMore(w: seq<byte>, scan: nat, v: seq<nat>, beat: nat, best: nat, start: int, cur: nat)
    requires scan + MAX_MATCH <= |w| && cur < scan && Longest(w, scan, v, beat, best, start)
    ensures var n := Agree(w, scan, cur, MAX_MATCH);
      Longest(w, scan, v + [cur], beat, if n > best then n else best, if n > best then cur else start)
  {
    hide Agree;
    var n := Agree(w, scan, cur, MAX_MATCH);
    if n > best {
      assert (v + [cur])[|v|] == cur;
    } else if best > beat {
      var i :| 0 <= i < |v| && start == v[i] && Agree(w, scan, v[i], MAX_MATCH) == best
               && forall j | 0 <= j < i :: Agree(w, scan, v[j], MAX_MATCH) < best;
      assert (v + [cur])[i] == v[i];
    }
  }

  // So no match of the text by a string looked at is longer than what is returned.
  lemma NoneLonger(s: Deflater, v: seq<nat>, best: nat, start: int, beat: nat, i: nat, n: nat)
    requires s.Sizes() && s.Aligned() && s.Ahead() && s.strstart + MIN_LOOKAHEAD <= s.window.Length
    requires Longest(s.window[..], s.strstart, v, beat, best, start)
    requires i < |v| && n <= MAX_MATCH && IsMatch(s.text, s.base + s.strstart, s.base + v[i], n)
    ensures n <= best && n <= s.lookahead
  {
    hide Agree;
    var w := s.window[..];
    WindowPart(w, s.text, s.base, s.strstart, n);
    WindowPart(w, s.text, s.base, v[i], n);
    AgreeAll(w, s.strstart, v[i], MAX_MATCH, n);
  }

  // How many strings of the chain are looked at, and when a match is good enough.
  function ChainLimit(s: Deflater): nat
    reads s`maxChain, s`prevLength, s`goodMatch
  {
    if s.prevLength >= s.goodMatch then s.maxChain / 4 else s.maxChain
  }

  function Nice(s: Deflater): nat
    reads s`niceMatch, s`lookahead
  {
    if s.niceMatch > s.lookahead then s.lookahead else s.niceMatch
  }

  // The strings the search may look at.
  ghost function Candidates(s: Deflater, hashHead: nat): (v: seq<nat>)
    requires s.Sizes()
    reads s`maxChain, s`prevLength, s`goodMatch, s`strstart, s.prev
  {
    Chain(s.prev[..], if s.strstart > s.MaxDist() then s.strstart - s.MaxDist() else 0, hashHead, ChainLimit(s))
  }

  // The state of the search once the strings v have been looked at.
  ghost predicate Sofar(s: Deflater, v: seq<nat>, best: nat)
    requires s.strstart + MAX_MATCH <= s.window.Length
    reads s`text, s`base, s`strstart, s`lookahead, s`matchStart, s`prevLength, s.window
  {
    && s.prevLength <= best <= MAX_MATCH && (best > s.prevLength ==> MIN_MATCH <= best && Better(s, best))
    && Longest(s.window[..], s.strstart, v, s.prevLength, best, s.matchStart)
  }

  // A longer match than was asked for, long enough to end the search.
  ghost predicate Enough(s: Deflater, cur: nat)
    reads s`strstart, s`niceMatch, s`lookahead, s`prevLength, s.window
  {
    && s.strstart + MAX_MATCH <= s.window.Length && cur < s.strstart
    && var n := Agree(s.window[..], s.strstart, cur, MAX_MATCH); n > s.prevLength && n >= Nice(s)
  }

  // The first k were looked at: up to the end of the chain, or to the first good enough.
  ghost predicate LookedAt(s: Deflater, v: seq<nat>, k: nat)
    reads s`strstart, s`niceMatch, s`lookahead, s`prevLength, s.window
  {
    && 1 <= k <= |v| && (k < |v| ==> Enough(s, v[k - 1]))
    && forall i | 0 <= i < k - 1 :: !Enough(s, v[i])
  }

  // Looks at the string at cur.
  method Visit(s: Deflater, cur: nat, best: nat, nice: nat, ghost v: seq<nat>) returns (best': nat, enough: bool)
    requires s.Sizes() && s.Aligned() && s.Ahead() && InChain(s, cur) && s.strstart - cur <= s.MaxDist()
    requires s.strstart + MIN_LOOKAHEAD <= s.window.Length && 1 <= s.prevLength && nice == Nice(s)
    requires Sofar(s, v, best) && (best > s.prevLength ==> best < nice)
    modifies s`matchStart
    ensures Sofar(s, v + [cur], best') && (enough <==> best' > best && best' >= nice)
    ensures enough ==> Enough(s, cur)
    ensures !enough ==> !Enough(s, cur) && (best' > s.prevLength ==> best' < nice)
  {
    hide Pow2, Offset, HashAt, IsMatch, InsertedAs, Deflater.Aligned, Agree, Longest;
    var len := TryMatch(s, cur, best);
    LongestMore(s.window[..], s.strstart, v, s.prevLength, best, s.matchStart, cur);
    best', enough := best, false;
    if len > best {
      s.matchStart := cur;
      best' := len;
      enough := len >= nice;
    }
  }

  lemma NothingLonger(s: Deflater)
    requires s.strstart + MAX_MATCH <= s.window.Length && s.prevLength <= MAX_MATCH
    ensures Sofar(s, [], s.prevLength)
  {}

  // The loop, over the strings of the chain.
  method Follow(s: Deflater, hashHead: nat, limit: nat, chain: nat, nice: nat) returns (best: nat, ghost v: seq<nat>)
    requires s.Sizes() && s.Aligned() && s.Linked() && s.Ahead() && s.bound <= s.base + s.strstart + 1
    requires hashHead != 0 && InChain(s, hashHead) && s.strstart - hashHead <= s.MaxDist()
    requires s.strstart + MIN_LOOKAHEAD <= s.window.Length && 1 <= s.prevLength <= MAX_MATCH
    requires limit == (if s.strstart > s.MaxDist() then s.strstart - s.MaxDist() else 0) && nice == Nice(s)
    modifies s`matchStart
    ensures Sofar(s, v, best) && v <= Chain(s.prev[..], limit, hashHead, chain)
    ensures LookedAt(s, Chain(s.prev[..], limit, hashHead, chain), |v|)
  {
    hide Pow2, Offset, HashAt, IsMatch, InsertedAs, InChain, Deflater.Linked, Deflater.Aligned, Agree, Longest, Chain, Enough, Better,
         Sofar, Nice;
    Offsets(s);
    var chainLength: nat, cur: nat := chain, hashHead;
    best, v := s.prevLength, [];
    ghost var all := Chain(s.prev[..], limit, hashHead, chain);
    NothingLonger(s);
    while true
      invariant cur != 0 && InChain(s, cur) && s.strstart - cur <= s.MaxDist()
      invariant Sofar(s, v, best) && (best > s.prevLength ==> best < nice)
      invariant forall i | 0 <= i < |v| :: !Enough(s, v[i])
      invariant all == v + Chain(s.prev[..], limit, cur, chainLength)
      decreases cur
    {
      ChainStep(s.prev[..], limit, cur, chainLength, v);
      var enough;
      best, enough := Visit(s, cur, best, nice, v);
      v := v + [cur];
      if enough { break; }
      var next := NextInChain(s, cur);
      if next <= limit { break; }
      chainLength := OneFewer(chainLength);
      if chainLength == 0 { break; }
      cur := next;
    }
  }

  method LongestMatch(s: Deflater, hashHead: nat) returns (len: nat, ghost best: nat, ghost k: nat)
    requires s.Sizes() && s.Aligned() && s.Linked() && s.Ahead() && s.bound <= s.base + s.strstart + 1
    requires hashHead != 0 && InChain(s, hashHead) && s.strstart - hashHead <= s.MaxDist()
    requires s.strstart + MIN_LOOKAHEAD <= s.window.Length && 1 <= s.prevLength <= MAX_MATCH
    modifies s`matchStart
    ensures len == if best < s.lookahead then best else s.lookahead
    ensures s.prevLength <= best && (len > s.prevLength ==> MIN_MATCH <= len <= MAX_MATCH && Better(s, len))
    ensures var v := Candidates(s, hashHead); LookedAt(s, v, k) && Sofar(s, v[..k], best)
  {
    hide Pow2, Offset, HashAt, IsMatch, InsertedAs, Deflater.Linked, Deflater.Aligned, Agree, Longest, Chain, LookedAt;
    var chainLength, nice := s.maxChain, s.niceMatch;
    var limit := if s.strstart > s.MaxDist() then s.strstart - s.MaxDist() else 0;
    if s.prevLength >= s.goodMatch { chainLength := chainLength / 4; }
    if nice > s.lookahead { nice := s.lookahead; }
    var bestLen: nat;
    ghost var v;
    bestLen, v := Follow(s, hashHead, limit, chainLength, nice);
    len := if bestLen <= s.lookahead then bestLen else s.lookahead;
    best, k := bestLen, |v|;
    assert Candidates(s, hashHead)[..k] == v;
  }

  lemma ChainStep(prev: seq<nat>, limit: nat, cur: nat, chain: nat, v: seq<nat>)
    requires |prev| > 0
    ensures var next := prev[cur % |prev|];
      v + Chain(prev, limit, cur, chain) ==
      if limit < next < cur && OneFewer(chain) != 0 then (v + [cur]) + Chain(prev, limit, next, OneFewer(chain)) else v + [cur]
  {}

  lemma Offsets(s: Deflater)
    requires s.Aligned()
    ensures s.base == Offset(s.slides, s.wsize)
  {}
}
