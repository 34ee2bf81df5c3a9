// Feeding the matcher: INSERT_STRING, slide_hash, read_buf and fill_window
// (deps/zlib/deflate.c:141-163, 187-209, 216-233, 251-327).

module WindowFeed {
  import opened Powers
  import opened Bits
  import opened StringHash
  import opened HashChains
  import opened Tokens
  import opened DeflateState

  lemma WindowByte(s: Deflater, p: nat)
    requires s.Aligned() && s.base + p < |s.text|
    ensures p < s.window.Length && s.window[p] == s.text[s.base + p]
  {
    assert s.window[..|s.text| - s.base][p] == s.text[s.base..][p];
  }

  // Inserts the string at window position str and returns the previous head of its chain.
  method InsertString(s: Deflater, str: nat) returns (hashHead: nat)
    requires s.Sizes() && s.Aligned() && s.Linked() && s.PrimedAt(s.base + str)
    requires s.bound <= s.base + str && s.base + str + 3 <= |s.text|
    modifies s`insH, s`ins, s`bound, s.head, s.prev
    ensures s.Linked() && s.bound == s.base + str + 1 && s.PrimedAt(s.base + str + 1)
    ensures hashHead != 0 ==> hashHead < str
    ensures hashHead != 0 ==>
              InsertedAs(s.text, s.hashBits, s.ins, s.base + hashHead, HashAt(s.text, s.base + str, s.hashBits))
  {
    hide Chains, Hash3, UpdateHash, Primed, Pow2, Offset, Slot;
    ghost var a, head0, prev0 := s.base + str, s.head[..], s.prev[..];
    WindowByte(s, str + 2);
    Key(s.text, a, s.insH, s.hashBits);
    s.insH := UpdateHash(s.insH, s.window[str + 2], s.hashBits);
    hashHead := s.head[s.insH];
    InsertKeeps(s.text, s.hashBits, s.ins, s.bound, s.base, head0, prev0, a, str, s.insH);
    HeadBefore(s.text, s.hashBits, s.ins, s.bound, s.base, head0, prev0, a, s.insH);
    SlotOf(str, s.slides, s.wsize);
    s.prev[str % s.wsize] := hashHead;
    s.head[s.insH] := str;
    assert s.prev[..] == prev0[Slot(a, s.wsize) := hashHead];
    assert s.head[..] == head0[s.insH := str];
    s.ins := s.ins + {a};
    s.bound := a + 1;
  }

  lemma SlotOf(p: nat, k: nat, w: nat)
    requires w > 0
    ensures Slot(Offset(k, w) + p, w) == p % w
  {
    SlotShift(p, k, w);
  }

  lemma Key(text: seq<byte>, a: nat, h: nat, bits: nat)
    requires 8 <= bits && a + 3 <= |text| && Primed(h, text[a], text[a + 1], bits)
    ensures UpdateHash(h, text[a + 2], bits) == HashAt(text, a, bits)
    ensures Primed(HashAt(text, a, bits), text[a + 1], text[a + 2], bits)
  {
    PrimedUpdate(h, text[a], text[a + 1], text[a + 2], bits);
    RollPrimed(text[a], text[a + 1], text[a + 2], bits);
  }

  lemma HeadBefore(text: seq<byte>, bits: nat, ins: set<nat>, bound: nat, base: nat, head: seq<nat>, prev: seq<nat>, a: nat, h: nat)
    requires Chains(text, bits, ins, bound, base, head, prev) && bound <= a && h < |head|
    ensures head[h] != 0 ==> base + head[h] < a && InsertedAs(text, bits, ins + {a}, base + head[h], h)
  {}

  // ------------------------------------------------------------ sliding

  method SlideArray(m: array<nat>, wsize: nat)
    modifies m
    ensures AllSlid(old(m[..]), m[..], wsize)
  {
    var n := m.Length;
    while n > 0
      invariant 0 <= n <= m.Length
      invariant forall i :: 0 <= i < n ==> m[i] == old(m[i])
      invariant forall i :: n <= i < m.Length ==> m[i] == Slid(old(m[i]), wsize)
    {
      n := n - 1;
      var e := m[n];
      m[n] := if e >= wsize then e - wsize else 0;
    }
  }


  // slide_hash; from here on positions count from the slid window.
  method SlideHash(s: Deflater)
    requires s.Sizes() && s.Linked() && s.base == Offset(s.slides, s.wsize)
    modifies s`base, s`slides, s.head, s.prev
    ensures s.Linked() && s.base == old(s.base) + s.wsize && s.base == Offset(s.slides, s.wsize)
  {
    hide Chains, AllSlid, Pow2, Offset;
    ghost var head0, prev0 := s.head[..], s.prev[..];
    SlideArray(s.head, s.wsize);
    SlideArray(s.prev, s.wsize);
    SlideKeeps(s.text, s.hashBits, s.ins, s.bound, s.base, head0, prev0, s.head[..], s.prev[..]);
    NextBase(s.slides, s.wsize);
    s.base, s.slides := s.base + s.wsize, s.slides + 1;
  }

  function Min(a: nat, b: nat): nat { if a < b then a else b }

  // Moves the upper half of the window down, and everything that points into it.
  method SlideWindow(s: Deflater, more: nat)
    requires s.Sizes() && s.Matching() && more == 2 * s.wsize - s.lookahead - s.strstart
    requires s.wsize + s.MaxDist() <= s.strstart
    modifies s`strstart, s`matchStart, s`insert, s`base, s`slides, s.window, s.head, s.prev
    ensures s.Matching() && s.base + s.strstart == old(s.base + s.strstart)
    ensures s.base + s.matchStart == old(s.base + s.matchStart)
    ensures s.strstart == old(s.strstart) - s.wsize
  {
    hide Deflater.Linked, Deflater.Keyed, Pow2, Offset;
    ghost var base, win0 := s.base, s.window[..];
    MoveDown(s.window, s.wsize, s.wsize - more);
    s.matchStart := s.matchStart - s.wsize;
    s.strstart := s.strstart - s.wsize;
    s.insert := Min(s.insert, s.strstart);
    SlideHash(s);
    SlidText(win0, s.window[..], s.text, base, s.wsize, s.wsize - more);
  }

  lemma SlidText(win: seq<byte>, win': seq<byte>, text: seq<byte>, base: nat, w: nat, n: nat)
    requires w + n <= |win| == |win'| && |text| == base + w + n
    requires win[..w + n] == text[base..] && win'[..n] == win[w..w + n]
    ensures win'[..n] == text[base + w..]
  {
    assert win[w..w + n] == win[..w + n][w..];
    assert text[base..][w..] == text[base + w..];
  }

  lemma NextBase(k: nat, w: nat)
    ensures Offset(k + 1, w) == Offset(k, w) + w
  {
    MulAdd(k, 1, w);
  }

  method MoveDown(a: array<byte>, from: nat, n: nat)
    requires n <= from && from + n <= a.Length
    modifies a
    ensures a[..n] == old(a[from..from + n])
  {
    var i := 0;
    while i < n
      invariant 0 <= i <= n && a[..i] == old(a[from..from + i]) && a[from..] == old(a[from..])
    {
      assert a[from..][i] == old(a[from..])[i];
      a[i] := a[from + i];
      i := i + 1;
    }
  }

  // ------------------------------------------------------------ reading

  // Keyed, but for the key.
  ghost predicate Waiting(s: Deflater)
    reads s`base, s`strstart, s`insert, s`bound
  {
    s.insert <= 2 && s.insert <= s.strstart && s.bound <= s.base + s.strstart - s.insert
  }

  // read_buf to the end of the lookahead, and the update of the lookahead.
  method ReadBuf(s: Deflater, more: nat)
    requires s.Sizes() && s.Aligned() && s.Linked() && s.Ahead() && more == 2 * s.wsize - s.lookahead - s.strstart
    requires s.next <= |s.input|
    modifies s`next, s`lookahead, s`text, s.window
    ensures s.Aligned() && s.Linked() && s.Ahead()
    ensures s.next <= |s.input| && (s.next == |s.input| || s.next == old(s.next) + more)
    ensures old(s.next) <= s.next && s.text == old(s.text) + s.input[old(s.next)..s.next]
    ensures s.lookahead == old(s.lookahead) + (s.next - old(s.next))
  {
    hide Chains, Pow2, Offset;
    var n := |s.input| - s.next;
    if n > more { n := more; }
    ghost var chunk := s.input[s.next..s.next + n];
    TextGrows(s.text, s.hashBits, s.ins, s.bound, s.base, s.head[..], s.prev[..], chunk);
    ReadIn(s, n);
    s.lookahead := s.lookahead + n;
  }

  // n bytes of input to the end of the window.
  method ReadIn(s: Deflater, n: nat)
    requires s.Sizes() && s.Aligned() && s.next + n <= |s.input| && |s.text| - s.base + n <= s.window.Length
    requires s.Ahead()
    modifies s`next, s`text, s.window
    ensures s.Aligned() && s.next == old(s.next) + n
    ensures s.text == old(s.text) + s.input[old(s.next)..s.next]
  {
    hide Pow2, Offset;
    var at := s.strstart + s.lookahead;
    ghost var win0, chunk := s.window[..at], s.input[s.next..s.next + n];
    CopyIn(s.window, at, s.input, s.next, n);
    assert s.window[..at + n] == win0 + chunk;
    assert (s.text + chunk)[s.base..] == s.text[s.base..] + chunk;
    s.next := s.next + n;
    s.text := s.text + chunk;
  }

  method CopyIn(a: array<byte>, at: nat, src: seq<byte>, from: nat, n: nat)
    requires at + n <= a.Length && from + n <= |src|
    modifies a
    ensures a[..at] == old(a[..at]) && a[at..at + n] == src[from..from + n]
  {
    var i := 0;
    while i < n
      invariant 0 <= i <= n && a[..at] == old(a[..at]) && a[at..at + i] == src[from..from + i]
    {
      a[at + i] := src[from + i];
      i := i + 1;
    }
  }

  // With three bytes to hash, starts the key afresh and inserts what had to wait.
  method Rehash(s: Deflater)
    requires s.Sizes() && s.Aligned() && s.Linked() && s.Ahead() && Waiting(s)
    modifies s`insH, s`insert, s`ins, s`bound, s.head, s.prev
    ensures s.Linked() && s.Keyed(s.base + s.strstart) && s.insert <= old(s.insert)
  {
    hide Deflater.Linked, Primed, HashAt, UpdateHash, Pow2, Offset;
    if s.lookahead + s.insert >= MIN_MATCH {
      var str := s.strstart - s.insert;
      WindowByte(s, str);
      WindowByte(s, str + 1);
      s.insH := s.window[str];
      s.insH := UpdateHash(s.insH, s.window[str + 1], s.hashBits);
      StartsPrimed(s.window[str], s.window[str + 1], s.hashBits);
      while s.insert > 0
        invariant str == s.strstart - s.insert && Waiting(s) && s.Linked() && s.PrimedAt(s.base + str)
        invariant s.lookahead + s.insert >= MIN_MATCH
        decreases s.insert
      {
        var hashHead := InsertString(s, str);
        str := str + 1;
        s.insert := s.insert - 1;
        if s.lookahead + s.insert < MIN_MATCH { break; }
      }
    }
  }

  lemma StartsPrimed(a: byte, b: byte, bits: nat)
    ensures Primed(UpdateHash(a, b, bits), a, b, bits)
  {}

  lemma KeyedWaits(s: Deflater)
    requires s.Keyed(s.base + s.strstart) && s.insert <= 2 && s.insert <= s.strstart
    ensures Waiting(s)
  {}

  lemma InWindow(s: Deflater)
    requires s.Sizes() && s.Matching()
    ensures s.strstart + s.lookahead <= 2 * s.wsize
  {}

  // One round: slide if the window is nearly full, then read, if there is anything to read.
  method FillOnce(s: Deflater) returns (again: bool)
    requires s.Sizes() && s.Matching() && s.lookahead < MIN_LOOKAHEAD && s.next <= |s.input|
    modifies s`insH, s`strstart, s`lookahead, s`matchStart, s`insert, s`next, s`text, s`base, s`slides, s`ins, s`bound,
             s.window, s.head, s.prev
    ensures s.Matching() && s.strstart < s.wsize + s.MaxDist()
    ensures s.strstart == old(s.strstart) || s.strstart >= s.MaxDist()
    ensures s.base + s.strstart == old(s.base + s.strstart) && s.base + s.matchStart == old(s.base + s.matchStart)
    ensures old(s.next) <= s.next <= |s.input| && s.text == old(s.text) + s.input[old(s.next)..s.next]
    ensures s.lookahead == old(s.lookahead) + (s.next - old(s.next))
    ensures again <==> s.lookahead < MIN_LOOKAHEAD && s.next != |s.input|
    ensures again ==> old(s.next) < s.next
  {
    hide Deflater.Linked, Deflater.Keyed, Deflater.Aligned, Pow2, Offset;
    InWindow(s);
    var more := 2 * s.wsize - s.lookahead - s.strstart;
    if s.strstart >= s.wsize + s.MaxDist() {
      SlideWindow(s, more);
      more := more + s.wsize;
    }
    again := false;
    if s.next != |s.input| {
      KeyedWaits(s);
      ReadBuf(s, more);
      Rehash(s);
      again := s.lookahead < MIN_LOOKAHEAD && s.next != |s.input|;
    }
  }

  // Enough room is always left to read at least two bytes.
  method FillWindow(s: Deflater)
    requires s.Sizes() && s.Matching() && s.lookahead < MIN_LOOKAHEAD && s.next <= |s.input|
    modifies s`insH, s`strstart, s`lookahead, s`matchStart, s`insert, s`next, s`text, s`base, s`slides, s`ins, s`bound,
             s.window, s.head, s.prev
    ensures s.Matching() && s.strstart < s.wsize + s.MaxDist()
    ensures s.strstart == old(s.strstart) || s.strstart >= s.MaxDist()
    ensures s.base + s.strstart == old(s.base + s.strstart) && s.base + s.matchStart == old(s.base + s.matchStart)
    ensures old(s.next) <= s.next <= |s.input| && s.text == old(s.text) + s.input[old(s.next)..s.next]
    ensures s.lookahead >= MIN_LOOKAHEAD || s.next == |s.input|
    ensures s.lookahead == old(s.lookahead) + (s.next - old(s.next))
  {
    hide Deflater.Matching, Pow2;
    var again := FillOnce(s);
    while again
      invariant s.Matching() && s.strstart < s.wsize + s.MaxDist()
      invariant s.strstart == old(s.strstart) || s.strstart >= s.MaxDist()
      invariant old(s.next) <= s.next <= |s.input|
      invariant s.base + s.strstart == old(s.base + s.strstart) && s.base + s.matchStart == old(s.base + s.matchStart)
      invariant s.text == old(s.text) + s.input[old(s.next)..s.next]
      invariant s.lookahead == old(s.lookahead) + (s.next - old(s.next))
      invariant again <==> s.lookahead < MIN_LOOKAHEAD && s.next != |s.input|
      decreases |s.input| - s.next
    {
      ghost var next := s.next;
      again := FillOnce(s);
      Appended(s.input, old(s.text), old(s.next), next, s.next);
    }
  }

  lemma Appended(input: seq<byte>, text: seq<byte>, a: nat, b: nat, c: nat)
    requires a <= b <= c <= |input|
    ensures (text + input[a..b]) + input[b..c] == text + input[a..c]
  {}
}
