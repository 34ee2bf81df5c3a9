// The unchecked decoding loop (deps/zlib/inffast.c:100-302). Given six bytes of input
// and room for 258 of output, a pass decodes one literal or match without checking
// either, and runs the same machine as the careful states.

module FastPath {
  import opened Powers
  import opened Bits
  import opened Canonical
  import opened TableLayout
  import opened BlockDecoding
  import opened BitReader
  import opened EntryLookup
  import opened CircularWindow
  import opened MatchCopy
  import opened InflateState

  // ------------------------------------------------------------ code words

  // The operations of the answer to a lookup.
  lemma TellsLenOp(lens: seq<bitlen>, h: nat, e: Entry)
    requires |lens| <= MaxSymbols(LENS) && EntryTells(LENS, lens, h, e)
    ensures LenOp(e.op)
  {
    hide SymbolEntry, Lo, Huff, Undecodable;
    if s: nat :| Coded(lens, s) && Lo(h, lens[s]) == Huff(lens, s) && e == SymbolEntry(LENS, s, lens[s]) {
      LenOps(s, lens[s]);
    }
  }

  lemma TellsDistOp(lens: seq<bitlen>, h: nat, e: Entry)
    requires |lens| <= MaxSymbols(DISTS) && EntryTells(DISTS, lens, h, e)
    ensures DistOp(e.op)
  {
    hide SymbolEntry, Lo, Huff, Undecodable;
    if s: nat :| Coded(lens, s) && Lo(h, lens[s]) == Huff(lens, s) && e == SymbolEntry(DISTS, s, lens[s]) {
      DistOps(s, lens[s]);
    }
  }

  // An operation the source takes for a link is one, and no answer is.
  lemma LinkTests(op: nat)
    ensures 0 < op < 16 ==> !Bit16(op) && !Bit64(op)
    ensures LenOp(op) ==> op == 0 || Bit16(op) || Bit64(op)
    ensures DistOp(op) ==> Bit16(op) || Bit64(op)
  {}

  lemma DropTwice(rest: seq<bool>, a: nat, b: nat)
    requires a + b <= |rest|
    ensures rest[a..][b..] == rest[a + b..]
  {}

  // The second lookup, past a link.
  method FastLink(r: Reader, table: seq<Entry>, root: nat, ghost kind: CodeType, ghost lens: seq<bitlen>, last: Entry, ghost e: Entry)
    returns (here: Entry)
    requires r.Valid() && |lens| <= MaxSymbols(kind) && Finds(table, root, r.hold, e) && e.bits <= r.bits
    requires Lo(r.hold, root) < |table| && last == table[Lo(r.hold, root)] && IsLink(last)
    modifies r`hold, r`bits
    ensures r.Valid() && r.bits == old(r.bits) - e.bits && e.bits <= |old(r.Rest())| && r.Rest() == old(r.Rest())[e.bits..]
    ensures here.op == e.op && here.val == e.val
  {
    hide Finds, Lo, Hi, Pow2, RestOf;
    ghost var rest := r.Rest();
    LinkFound(table, root, kind, lens, r.hold, last, e);
    r.DropBits(last.bits);
    here := table[last.val + r.Peek(last.op)];
    r.DropBits(here.bits);
    DropTwice(rest, root, here.bits);
  }

  // The entry for the next code word, its bits dropped, when at least 15 bits are there.
  // Second-level entries are never links, so at most one link is followed.
  method FastEntry(r: Reader, table: seq<Entry>, root: nat, kind: CodeType, ghost lens: seq<bitlen>)
    returns (here: Entry, ghost e: Entry)
    requires r.Valid() && |lens| <= MaxSymbols(kind) && Ready(table, root, kind, lens) && kind != CODES
    requires 15 <= r.bits
    modifies r`hold, r`bits
    ensures r.Valid() && r.bits == old(r.bits) - e.bits && e.bits <= 15 && e.bits <= |old(r.Rest())|
    ensures r.Rest() == old(r.Rest())[e.bits..]
    ensures here.op == e.op && here.val == e.val && Answers(kind, lens, LookUp(lens, old(r.Rest())), e)
  {
    hide Ready, Finds, Answers, LookUp, Decodes, Lo, Hi, Pow2, RestOf, Usable, EntryTells, Bit16, Bit64, LenOp, DistOp;
    e := RootTells(table, root, kind, lens, r.hold);
    AnswerOp(kind, lens, r.hold, e);
    ReadyUsable(table, root, kind, lens);
    EnoughBits(kind, lens, r.hold, r.bits, r.input[r.next..], e);
    here := table[r.Peek(root)];
    LinkTests(here.op);
    if (kind == DISTS || here.op != 0) && !Bit16(here.op) && !Bit64(here.op) {
      here := FastLink(r, table, root, kind, lens, here, e);
    } else {
      r.DropBits(here.bits);
    }
  }

  lemma AnswerOp(kind: CodeType, lens: seq<bitlen>, h: nat, e: Entry)
    requires |lens| <= MaxSymbols(kind) && EntryTells(kind, lens, h, e) && kind != CODES
    ensures if kind == LENS then LenOp(e.op) else DistOp(e.op)
  {
    if kind == LENS { TellsLenOp(lens, h, e); } else { TellsDistOp(lens, h, e); }
  }

  lemma LinkFound(t: seq<Entry>, root: nat, kind: CodeType, lens: seq<bitlen>, h: nat, last: Entry, e: Entry)
    requires |lens| <= MaxSymbols(kind) && Finds(t, root, h, e)
    requires Lo(h, root) < |t| && last == t[Lo(h, root)] && IsLink(last)
    ensures last.bits == root && last.val + Lo(Hi(h, root), last.op) < |t|
    ensures var sub := t[last.val + Lo(Hi(h, root), last.op)]; e == sub.(bits := root + sub.bits)
  {}

  // ------------------------------------------------------------ input

  // Two bytes, when fewer than 15 bits are there.
  method Refill(r: Reader)
    requires r.Valid() && r.next + 2 <= |r.input|
    modifies r`next, r`hold, r`bits
    ensures r.Valid() && r.Rest() == old(r.Rest()) && 15 <= r.bits
    ensures 8 * r.next - r.bits == 8 * old(r.next) - old(r.bits) && r.next <= old(r.next) + 2
  {
    hide Reader.Rest, Lo;
    if r.bits < 15 {
      var ok := r.PullByte();
      ok := r.PullByte();
    }
  }

  // The n extra bits of a length or distance, reading a byte, or two, only when short of them.
  method FastExtra(r: Reader, n: nat) returns (v: nat)
    requires r.Valid() && n <= 13
    requires r.bits < n ==> r.next < |r.input|
    requires r.bits + 8 < n ==> r.next + 1 < |r.input|
    modifies r`next, r`hold, r`bits
    ensures r.Valid() && n <= |old(r.Rest())| && r.Rest() == old(r.Rest())[n..] && v == Val(old(r.Rest())[..n])
    ensures 8 * r.next - r.bits == 8 * old(r.next) - old(r.bits) + n
    ensures r.next <= old(r.next) + if old(r.bits) < n then (if old(r.bits) + 8 < n then 2 else 1) else 0
  {
    hide Reader.Rest, Lo, Val;
    if r.bits < n {
      var ok := r.PullByte();
      if r.bits < n {
        ok := r.PullByte();
      }
    }
    v := r.TakeBits(n);
  }

  // What was read but not needed, in whole bytes, goes back to the input.
  lemma UnreadBytes(input: seq<byte>, next0: nat, bits0: nat, hold0: nat, next: nat, bits: nat, hold: nat, n: nat, m: nat)
    requires next0 <= |input| && next <= |input| && hold < Pow2(bits) && bits == 8 * n + m && m < 8
    requires |RestOf(hold, bits, input[next..])| < 8 * (|input| - next0) + 8
    requires SuffixOf(RestOf(hold, bits, input[next..]), RestOf(hold0, bits0, input[next0..]))
    ensures next0 + n <= next
    ensures RestOf(Lo(hold, m), m, input[next - n..]) == RestOf(hold, bits, input[next..])
  {
    hide BitsOf, BytesToBits, Lo, Hi, Pow2;
    BitsOfSplit(hold, m, bits);
    BitsOfLow(hold, m);
    var head, mid := BitsOf(hold, m), BitsOf(Hi(hold, m), bits - m);
    var front, back := input[next0..next - n], input[next - n..];
    assert input[next0..] == front + back;
    BytesToBitsConcat(front, back);
    SameSuffix(head, mid, BytesToBits(input[next..]), BitsOf(hold0, bits0), BytesToBits(front), BytesToBits(back));
  }

  lemma SameSuffix(a: seq<bool>, b: seq<bool>, c: seq<bool>, d: seq<bool>, e: seq<bool>, f: seq<bool>)
    requires SuffixOf((a + b) + c, d + (e + f)) && |f| == |b + c|
    ensures a + f == (a + b) + c
  {
    var s, t := (a + b) + c, d + (e + f);
    assert s[|a|..] == b + c;
    assert t[|t| - |f|..] == f;
    assert s[|a|..] == t[|t| - |s|..][|a|..] == t[|t| - |f|..];
  }

  method ReturnUnused(r: Reader, ghost next0: nat, ghost bits0: nat, ghost hold0: nat)
    requires r.Valid() && next0 <= |r.input| && |r.Rest()| < 8 * (|r.input| - next0) + 8
    requires SuffixOf(r.Rest(), RestOf(hold0, bits0, r.input[next0..]))
    modifies r`next, r`hold, r`bits
    ensures r.Valid() && r.Rest() == old(r.Rest()) && r.bits < 8
  {
    hide RestOf, SuffixOf, Lo;
    var n := r.bits / 8;
    UnreadBytes(r.input, next0, bits0, hold0, r.next, r.bits, r.hold, n, r.bits % 8);
    r.next := r.next - n;
    LoHiIs(r.hold, r.bits - 8 * n);
    r.bits := r.bits - 8 * n;
    r.hold := r.hold % Pow2(r.bits);
  }

  // ------------------------------------------------------------ copying

  // In the middle of a match: n bytes still to copy from `dist` back.
  ghost function Copying(st: State, n: nat, dist: nat): Conf
    requires st.src.Valid() && st.Output()
    reads st, st.src, st.win, st.win.window, st.dest
  {
    Normal(Conf(if n == 0 then LEN else MATCH, n, dist, 0, st.src.Rest(), st.Out(), st.Seen()))
  }

  // One piece of the match, as a run of the machine.
  method FastPiece(st: State, from: array<byte>, f: nat, n: nat, len: nat, dist: nat, byThree: bool)
    requires st.src.Valid() && st.Output() && !st.lost && 1 <= n <= len <= 258 && n <= st.left && f + n <= from.Length
    requires 1 <= dist <= 32768 && dist <= st.Seen() && PieceAt(st, dist, from, f, n)
    modifies st`put, st`left, st.dest
    ensures st.put + st.left == old(st.put + st.left)
    ensures st.Output() && st.left == old(st.left) - n && st.put == old(st.put) + n && dist <= st.Seen()
    ensures Runs(st.codes, old(Copying(st, len, dist)), Copying(st, len - n, dist))
  {
    hide State.Output, State.Out, State.Seen, Reader.Valid, Reader.Rest, Step, Runs, Pow2, Continues, PieceAt;
    st.SeenOut();
    ghost var p, c := st.codes, Copying(st, len, dist);
    ghost var piece := st.CopyPiece(from, f, n, dist, byThree);
    PieceDone(p, c, piece, if len == n then LEN else MATCH, len - n, 0, st.Out(), st.Seen());
  }

  lemma LowPiece(win: Window, back: nat, n: nat)
    requires win.Valid() && 1 <= back <= win.whave && back <= win.wnext && n <= back
    ensures win.wnext <= win.window.Length && FromWindow(win.window[..], win.history, back, win.wnext - back, n)
  {
    Window.HoldsRange(win.window[..], win.whave, win.wnext, win.history);
    ReadLow(win.window[..], win.whave, win.wnext, win.history, back, win.wnext - back);
    hide Holds;
    FewerFromWindow(win.window[..], win.history, back, win.wnext - back, back, n);
  }

  lemma HighPiece(win: Window, back: nat, n: nat)
    requires win.Valid() && win.wnext < back <= win.whave && n <= back - win.wnext
    ensures win.whave <= win.wsize == win.window.Length
    ensures FromWindow(win.window[..], win.history, back, win.wsize + win.wnext - back, n)
  {
    Window.HoldsRange(win.window[..], win.whave, win.wnext, win.history);
    hide Holds;
    var piece := back - win.wnext;
    ReadHigh(win.window[..], win.whave, win.wnext, win.history, back, win.wsize - piece, piece);
    FewerFromWindow(win.window[..], win.history, back, win.wsize - piece, piece, n);
  }

  // The part of a match that lies in the window, but for the last piece: where that is,
  // and how much is left to copy.
  method FastWindow(st: State, len: nat, dist: nat) returns (from: array<byte>, f: nat, n: nat)
    requires st.src.Valid() && st.Output() && !st.lost && 1 <= len <= 258 && len <= st.left
    requires 1 <= dist <= 32768 && st.put - st.start < dist <= st.Seen()
    modifies st`put, st`left, st.dest
    ensures st.put + st.left == old(st.put + st.left)
    ensures st.Output() && 1 <= n <= len && st.left == old(st.left) - (len - n) && dist <= st.Seen()
    ensures PieceAt(st, dist, from, f, n) && f + n <= from.Length
    ensures Runs(st.codes, old(Copying(st, len, dist)), Copying(st, n, dist))
  {
    hide Window.Valid, Runs, Copying, Reader.Valid, State.Out, FromWindow;
    ghost var p, c := st.codes, Copying(st, len, dist);
    RunsZero(p, c);
    var win := st.win;
    var op := dist - (st.put - st.start);
    from, n := win.window, len;
    if win.wnext == 0 {
      HighPiece(win, op, if op < n then op else n);
      f := win.wsize - op;
      if op < n {
        FastPiece(st, from, f, op, n, dist, false);
        n := n - op;
        from, f := st.dest, st.put - dist;
      }
    } else if win.wnext < op {
      HighPiece(win, op, if op - win.wnext < n then op - win.wnext else n);
      f := win.wsize + win.wnext - op;
      op := op - win.wnext;
      if op < n {
        FastPiece(st, from, f, op, n, dist, false);
        n := n - op;
        f := 0;
        LowPiece(win, win.wnext, if win.wnext < n then win.wnext else n);
        if win.wnext < n {
          ghost var d := Copying(st, n, dist);
          FastPiece(st, from, f, win.wnext, n, dist, false);
          n := n - win.wnext;
          from, f := st.dest, st.put - dist;
          RunsTrans(p, c, d, Copying(st, n, dist));
        }
      }
    } else {
      LowPiece(win, op, if op < n then op else n);
      f := win.wnext - op;
      if op < n {
        FastPiece(st, from, f, op, n, dist, false);
        n := n - op;
        from, f := st.dest, st.put - dist;
      }
    }
  }

  method FastCopy(st: State, len: nat, dist: nat)
    requires st.src.Valid() && st.Output() && !st.lost && 1 <= len <= 258 && len <= st.left
    requires 1 <= dist <= 32768 && dist <= st.Seen()
    modifies st`put, st`left, st.dest
    ensures st.put + st.left == old(st.put + st.left)
    ensures st.Output() && st.left == old(st.left) - len
    ensures Runs(st.codes, old(Copying(st, len, dist)), Copying(st, 0, dist))
  {
    hide Window.Valid, Runs, Copying, Reader.Valid, State.Out;
    if dist > st.put - st.start {
      ghost var p, c := st.codes, Copying(st, len, dist);
      var from, f, n := FastWindow(st, len, dist);
      ghost var d := Copying(st, n, dist);
      FastPiece(st, from, f, n, n, dist, true);
      RunsTrans(p, c, d, Copying(st, 0, dist));
    } else {
      FastPiece(st, st.dest, st.put - dist, len, len, dist, true);
    }
  }

  // ------------------------------------------------------------ one pass

  ghost function At(st: State, mode: Mode, length: nat, offset: nat, extra: nat): Conf
    requires st.src.Valid() && st.Output()
    reads st, st.src, st.win, st.win.window, st.dest
  {
    Normal(Conf(mode, length, offset, extra, st.src.Rest(), st.Out(), st.Seen()))
  }

  // The state in the middle of a pass that began at input byte next0: `used` bits read.
  ghost predicate Within(st: State, next0: nat, used: nat)
    reads st, st.src, st.win, st.win.window
  {
    && st.src.Valid() && st.Output() && st.Decoding() && !st.lost && st.mode == LEN
    && 258 <= st.left && next0 + 6 <= |st.src.input|
    && 8 * st.src.next <= 8 * next0 + used + st.src.bits
  }

  method FastDistance(st: State, len: nat, base: nat, extra: nat, ghost next0: nat)
    requires Within(st, next0, 35) && st.src.next <= next0 + 5
    requires InRange(DISTEXT, len, base, extra)
    modifies st`mode, st`put, st`left, st.dest, st.src`next, st.src`hold, st.src`bits
    ensures st.put + st.left == old(st.put + st.left)
    ensures st.src.Valid() && st.Output() && (st.mode == LEN || st.mode == BAD)
    ensures st.src.next <= next0 + 6 && old(st.left) - 258 <= st.left <= old(st.left)
    ensures Runs(st.codes, old(At(st, DISTEXT, len, base, extra)), st.Abs())
  {
    hide State.Decoding, State.Out, Window.Valid, Reader.Rest, Runs, Pow2, Step, Val;
    ghost var p, c := st.codes, At(st, DISTEXT, len, base, extra);
    var v := FastExtra(st.src, extra);
    var dist := base + v;
    ghost var d := At(st, MATCH, len, dist, 0);
    DistExtDone(p, c, v, 0, st.src.Rest());
    var op := st.put - st.start;
    st.SeenOut();
    if dist > op && dist - op > st.win.whave {
      st.mode := BAD;
      TooFarBack(p, d, st.length, st.offset, st.extra);
      RunsTrans(p, c, d, st.Abs());
    } else {
      FastCopy(st, len, dist);
      RunsTrans(p, c, d, st.Abs());
    }
  }

  lemma DistModeIs(op: nat)
    ensures DistMode(op) == if Bit16(op) then DISTEXT else BAD
  {}

  lemma LenModeIs(op: nat)
    ensures LenMode(op) == if op == 0 then LIT else if Bit16(op) then LENEXT else if Bit32(op) then TYPE else BAD
  {}

  // The state right after the entry `here` was read: the machine has just looked it up.
  ghost function AtLen(st: State, here: Entry): Conf
    requires st.src.Valid() && st.Output()
    reads st, st.src, st.win, st.win.window, st.dest
  {
    At(st, LenMode(here.op), here.val, 0, OpExtra(here.op))
  }

  ghost function AtDist(st: State, len: nat, here: Entry): Conf
    requires st.src.Valid() && st.Output()
    reads st, st.src, st.win, st.win.window, st.dest
  {
    At(st, DistMode(here.op), len, here.val, OpExtra(here.op))
  }

  // The length or literal code word.
  method FastLenCode(st: State) returns (here: Entry)
    requires st.Core() && st.mode == LEN && st.src.next + 6 <= |st.src.input| && 258 <= st.left
    modifies st.src`next, st.src`hold, st.src`bits
    ensures Within(st, old(st.src.next), 15) && st.src.next <= old(st.src.next) + 2
    ensures InRange(LenMode(here.op), here.val, 0, OpExtra(here.op))
    ensures Runs(st.codes, old(st.Abs()), AtLen(st, here)) && |st.src.Rest()| < |old(st.src.Rest())|
    ensures old(Tight(st.codes.llens, st.src.hold, st.src.bits)) ==>
              |st.src.Rest()| + old(st.src.bits) < |old(st.src.Rest())| + 8
  {
    hide State.Decoding, State.Output, State.Out, State.Seen, Reader.Rest, Ready, ValidCodes, Runs, Pow2, Step,
         Answers, LookUp, LenMode, LenOp, OpExtra, Tight, Usable, RestOf;
    ghost var p, c := st.codes, st.Abs();
    ghost var hold0, bits0, more := st.src.hold, st.src.bits, st.src.input[st.src.next..];
    st.SizesOf();
    st.src.RestIs();
    Refill(st.src);
    ghost var e: Entry;
    here, e := FastEntry(st.src, st.lencode, st.lenbits, LENS, p.llens);
    LenDone(p, c, e, LenMode(e.op), e.val, 0, OpExtra(e.op), st.src.Rest());
    if old(Tight(st.codes.llens, st.src.hold, st.src.bits)) {
      ReadyUsable(st.lencode, st.lenbits, LENS, p.llens);
      TightTakes(LENS, p.llens, hold0, bits0, more, e);
    }
  }

  // The extra length bits.
  method FastLenExtra(st: State, base: nat, extra: nat, ghost next0: nat) returns (len: nat)
    requires Within(st, next0, 15) && st.src.next <= next0 + 2
    requires InRange(LENEXT, base, 0, extra)
    modifies st.src`next, st.src`hold, st.src`bits
    ensures Within(st, next0, 20) && st.src.next <= next0 + 3 && InRange(DIST, len, 0, 0)
    ensures Runs(st.codes, old(At(st, LENEXT, base, 0, extra)), At(st, DIST, len, 0, 0))
  {
    hide State.Decoding, State.Output, State.Out, State.Seen, Reader.Rest, Runs, Pow2, Step, Val;
    ghost var p, c := st.codes, At(st, LENEXT, base, 0, extra);
    var v := FastExtra(st.src, extra);
    len := base + v;
    LenExtDone(p, c, v, 0, 0, st.src.Rest());
  }

  // The distance code word.
  method FastDistCode(st: State, len: nat, ghost next0: nat) returns (here: Entry)
    requires Within(st, next0, 20) && st.src.next <= next0 + 3 && InRange(DIST, len, 0, 0)
    modifies st.src`next, st.src`hold, st.src`bits
    ensures Within(st, next0, 35) && st.src.next <= next0 + 5
    ensures InRange(DistMode(here.op), len, here.val, OpExtra(here.op))
    ensures Runs(st.codes, old(At(st, DIST, len, 0, 0)), AtDist(st, len, here))
  {
    hide State.Decoding, State.Output, State.Out, State.Seen, Reader.Rest, Ready, ValidCodes, Runs, Pow2, Step,
         Answers, LookUp, DistMode, DistOp, OpExtra;
    ghost var p, c := st.codes, At(st, DIST, len, 0, 0);
    st.SizesOf();
    Refill(st.src);
    ghost var e: Entry;
    here, e := FastEntry(st.src, st.distcode, st.distbits, DISTS, p.dlens);
    DistDone(p, c, e, DistMode(e.op), len, e.val, OpExtra(e.op), st.src.Rest());
  }

  method FastLength(st: State, base: nat, extra: nat, ghost next0: nat)
    requires Within(st, next0, 15) && st.src.next <= next0 + 2
    requires InRange(LENEXT, base, 0, extra)
    modifies st`mode, st`put, st`left, st.dest, st.src`next, st.src`hold, st.src`bits
    ensures st.put + st.left == old(st.put + st.left)
    ensures st.src.Valid() && st.Output() && (st.mode == LEN || st.mode == BAD)
    ensures st.src.next <= next0 + 6 && old(st.left) - 258 <= st.left <= old(st.left)
    ensures Runs(st.codes, old(At(st, LENEXT, base, 0, extra)), st.Abs())
  {
    hide State.Decoding, State.Output, State.Out, State.Seen, Reader.Rest, Reader.Valid, Runs, Pow2, DistMode, Bit16, OpExtra;
    ghost var p, c := st.codes, At(st, LENEXT, base, 0, extra);
    var len := FastLenExtra(st, base, extra, next0);
    ghost var d0 := At(st, DIST, len, 0, 0);
    var here := FastDistCode(st, len, next0);
    ghost var d := AtDist(st, len, here);
    RunsTrans(p, c, d0, d);
    DistModeIs(here.op);
    if Bit16(here.op) {
      FastDistance(st, len, here.val, OpExtra(here.op), next0);
      RunsTrans(p, c, d, st.Abs());
    } else {
      st.mode := BAD;
    }
  }

  // One round of the loop: at most six bytes read and 258 written, with no checks.
  method FastPass(st: State)
    requires st.Core() && st.mode == LEN && st.src.next + 6 <= |st.src.input| && 258 <= st.left
    modifies st`mode, st`put, st`left, st.dest, st.src`next, st.src`hold, st.src`bits
    ensures st.put + st.left == old(st.put + st.left)
    ensures st.Core() && (st.mode == LEN || st.mode == TYPE || st.mode == BAD)
    ensures st.src.next <= old(st.src.next) + 6 && old(st.left) - 258 <= st.left <= old(st.left)
    ensures Runs(st.codes, old(st.Abs()), st.Abs()) && |st.src.Rest()| < |old(st.src.Rest())|
    ensures old(Tight(st.codes.llens, st.src.hold, st.src.bits)) ==>
              |st.src.Rest()| + old(st.src.bits) < |old(st.src.Rest())| + 8
  {
    hide State.Decoding, State.Output, State.Out, State.Seen, Reader.Rest, Reader.Valid, Runs, Pow2, LenMode, Bit16, Bit32, OpExtra, Tight;
    ghost var p, c, next0 := st.codes, st.Abs(), st.src.next;
    var here := FastLenCode(st);
    ghost var d := AtLen(st, here);
    LenModeIs(here.op);
    if here.op == 0 {
      st.PutByte(here.val);
      LitDone(p, d, 0, 0, 0, st.Out(), st.Seen());
      RunsTrans(p, c, d, st.Abs());
    } else if Bit16(here.op) {
      FastLength(st, here.val, OpExtra(here.op), next0);
      RunsTrans(p, c, d, st.Abs());
      RunsSuffix(p, d, st.Abs());
    } else if Bit32(here.op) {
      st.mode := TYPE;
    } else {
      st.mode := BAD;
    }
  }

  // On entry all that is held but the last byte decides no code word.
  lemma TightEntry(st: State)
    requires st.Valid() && st.mode == LEN
    ensures Tight(st.codes.llens, st.src.hold, st.src.bits)
  {
    hide State.Output, Tight, Undecided, Ready, Pow2;
    ReadyUsable(st.lencode, st.lenbits, LENS, st.codes.llens);
    UndecidedTight(st.codes.llens, st.src.hold, st.src.bits);
  }

  method InflateFast(st: State)
    requires st.Valid() && st.mode == LEN && st.src.next + 6 <= |st.src.input| && 258 <= st.left
    modifies st`mode, st`put, st`left, st.dest, st.src`next, st.src`hold, st.src`bits
    ensures st.put + st.left == old(st.put + st.left)
    ensures st.Valid() && (st.mode == LEN || st.mode == TYPE || st.mode == BAD) && st.src.bits < 8
    ensures Runs(st.codes, old(st.Abs()), st.Abs())
    ensures |st.src.Rest()| < |old(st.src.Rest())| && st.left <= old(st.left)
  {
    hide State.Decoding, State.Output, State.Out, State.Seen, Reader.Rest, Runs, Pow2, Tight;
    ghost var p, c := st.codes, st.Abs();
    ghost var next0, bits0, hold0 := st.src.next, st.src.bits, st.src.hold;
    st.src.RestIs();
    TightEntry(st);
    FastPass(st);
    ghost var most := |st.src.Rest()|;
    while st.mode == LEN && st.src.next + 6 <= |st.src.input| && 258 <= st.left
      invariant st.Core() && (st.mode == LEN || st.mode == TYPE || st.mode == BAD) && st.put + st.left == old(st.put + st.left)
      invariant Runs(p, c, st.Abs()) && |st.src.Rest()| <= most < |c.rest| && st.left <= old(st.left)
      decreases |st.src.Rest()|
    {
      ghost var d := st.Abs();
      FastPass(st);
      RunsTrans(p, c, d, st.Abs());
    }
    RunsSuffix(p, c, st.Abs());
    ReturnUnused(st.src, next0, bits0, hold0);
    st.LessThanAByte();
  }
}
