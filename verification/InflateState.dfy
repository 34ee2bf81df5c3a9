// The decoder's state between and during calls of inflate() (deps/zlib/inflate.h and
// inflate.c), and the configuration of the decoding machine it stands for.

module InflateState {
  import opened Powers
  import opened Bits
  import opened TableLayout
  import opened BlockDecoding
  import opened BitReader
  import opened EntryLookup
  import opened CircularWindow
  import opened MatchCopy

  // ------------------------------------------------------------ entry operations

  predicate Bit16(op: nat) { op / 16 % 2 == 1 }
  predicate Bit32(op: nat) { op / 32 % 2 == 1 }
  predicate Bit64(op: nat) { op / 64 % 2 == 1 }

  // The extra bits a length or distance entry calls for.
  function OpExtra(op: nat): nat { op % 16 }

  // What a literal/length entry makes the decoder do next.
  function LenMode(op: nat): Mode {
    if op == 0 then LIT
    else if Bit16(op) then LENEXT
    else if Bit32(op) then TYPE
    else BAD
  }

  function DistMode(op: nat): Mode {
    if Bit16(op) then DISTEXT else BAD
  }

  function AfterLen(c: Conf, e: Entry): Conf
    requires e.bits <= |c.rest|
  {
    Normal(c.(mode := LenMode(e.op), length := e.val, extra := OpExtra(e.op), rest := c.rest[e.bits..]))
  }

  function AfterDist(c: Conf, e: Entry): Conf
    requires e.bits <= |c.rest|
  {
    Normal(c.(mode := DistMode(e.op), offset := e.val, extra := OpExtra(e.op), rest := c.rest[e.bits..]))
  }

  // The operations a literal/length or distance entry can carry.
  predicate LenOp(op: nat) {
    op == 0 || 16 <= op <= 21 || op == 64 || op == 77 || op == 96 || op == 203
  }

  predicate DistOp(op: nat) {
    16 <= op <= 29 || op == 64
  }

  lemma LenOps(s: nat, bits: nat)
    requires s < 288
    ensures LenOp(SymbolEntry(LENS, s, bits).op)
    ensures s < 256 ==> SymbolEntry(LENS, s, bits) == Entry(0, bits, s)
    ensures s == 256 ==> SymbolEntry(LENS, s, bits) == Entry(96, bits, 0)
    ensures 257 <= s < 286 ==> SymbolEntry(LENS, s, bits) == Entry(16 + LengthExtra(s - 257), bits, LengthBase(s - 257))
    ensures 257 <= s < 286 ==> LengthExtra(s - 257) <= 5 && 3 <= LengthBase(s - 257)
    ensures 257 <= s < 286 ==> LengthBase(s - 257) + Pow2(LengthExtra(s - 257)) <= 259
    ensures 286 <= s ==> SymbolEntry(LENS, s, bits).op in {77, 203}
  {
    if 257 <= s < 286 { CopyOps(s, bits); }
  }

  lemma CopyOps(s: nat, bits: nat)
    requires 257 <= s < 286
    ensures SymbolEntry(LENS, s, bits) == Entry(16 + LengthExtra(s - 257), bits, LengthBase(s - 257)) && LenOp(SymbolEntry(LENS, s, bits).op)
    ensures LengthExtra(s - 257) <= 5 && 3 <= LengthBase(s - 257)
    ensures LengthBase(s - 257) + Pow2(LengthExtra(s - 257)) <= 259
  {
    ComputePow2();
  }

  lemma DistOps(s: nat, bits: nat)
    requires s < 32
    ensures DistOp(SymbolEntry(DISTS, s, bits).op)
    ensures s < 30 ==> SymbolEntry(DISTS, s, bits) == Entry(16 + DistExtra(s), bits, DistBase(s))
    ensures s < 30 ==> DistExtra(s) <= 13 && 1 <= DistBase(s)
    ensures s < 30 ==> DistBase(s) + Pow2(DistExtra(s)) <= 32769
    ensures 30 <= s ==> SymbolEntry(DISTS, s, bits).op == 64
  {
    ComputePow2();
  }

  lemma ComputePow2()
    ensures Pow2(0) == 1 && Pow2(1) == 2 && Pow2(2) == 4 && Pow2(3) == 8 && Pow2(4) == 16 && Pow2(5) == 32
    ensures Pow2(6) == 64 && Pow2(7) == 128 && Pow2(8) == 256 && Pow2(9) == 512 && Pow2(10) == 1024
    ensures Pow2(11) == 2048 && Pow2(12) == 4096 && Pow2(13) == 8192
  {
    assert Pow2(4) == 16;
    assert Pow2(8) == 256;
    assert Pow2(12) == 4096;
  }

  // The tests of the careful path sort the operations the same way.
  lemma LenTests(op: nat)
    requires LenOp(op)
    ensures LenMode(op) ==
            if op == 0 then LIT else if Bit32(op) then TYPE else if Bit64(op) then BAD else LENEXT
  {}

  lemma DistTests(op: nat)
    requires DistOp(op)
    ensures DistMode(op) == if Bit64(op) then BAD else DISTEXT
  {}

  // What the fields hold in each mode: extra bits still to read never take a length
  // past 258 or a distance past 32768.
  ghost predicate InRange(mode: Mode, length: nat, offset: nat, extra: nat) {
    match mode
    case LENEXT => 3 <= length && extra <= 5 && length + Pow2(extra) <= 259
    case DIST => 3 <= length <= 258
    case DISTEXT => 3 <= length <= 258 && 1 <= offset && extra <= 13 && offset + Pow2(extra) <= 32769
    case MATCH => 1 <= length <= 258 && 1 <= offset <= 32768
    case LIT => length < 256
    case _ => true
  }

  // A looked-up entry is one step of the machine.
  lemma LenStep(p: Codes, c: Conf, e: Entry)
    requires ValidCodes(p) && |p.llens| <= MaxSymbols(LENS) && c.mode == LEN && e.bits <= |c.rest|
    requires Answers(LENS, p.llens, LookUp(p.llens, c.rest), e)
    ensures Step(p, c) == Some(AfterLen(c, e)) && LenOp(e.op) && 1 <= e.bits
    ensures LenMode(e.op) == LENEXT ==> OpExtra(e.op) <= 5 && 3 <= e.val
    ensures LenMode(e.op) == LENEXT ==> e.val + Pow2(OpExtra(e.op)) <= 259
    ensures LenMode(e.op) == LIT ==> e.val < 256
  {
    hide SymbolEntry, LengthBase, LengthExtra, LookUp, Pow2, Lo, Hi, ValidCodes;
    CodeSizes(p);
    match LookUp(p.llens, c.rest)
    case Found(s) =>
      LenOps(s, e.bits);
    case Wrong =>
  }

  // The same, read off the fields after the entry was acted on.
  lemma LenDone(p: Codes, c: Conf, e: Entry, mode: Mode, length: nat, offset: nat, extra: nat, rest: seq<bool>)
    requires ValidCodes(p) && |p.llens| <= MaxSymbols(LENS) && c.mode == LEN && e.bits <= |c.rest|
    requires Answers(LENS, p.llens, LookUp(p.llens, c.rest), e)
    requires mode == LenMode(e.op) && length == e.val && (mode == LENEXT ==> extra == OpExtra(e.op))
    requires rest == c.rest[e.bits..]
    ensures Runs(p, c, Normal(Conf(mode, length, offset, extra, rest, c.out, c.seen)))
    ensures InRange(mode, length, offset, extra) && LenOp(e.op) && 1 <= e.bits
  {
    hide Step, Runs, LookUp, Answers, LenOp, ValidCodes, Bit16, Bit32, Pow2;
    LenStep(p, c, e);
    LenModes(e.op);
    RunsStep(p, c, AfterLen(c, e));
    assert AfterLen(c, e) == Normal(Conf(mode, length, offset, extra, rest, c.out, c.seen));
  }

  lemma LenModes(op: nat)
    ensures LenMode(op) == LIT || LenMode(op) == LENEXT || LenMode(op) == TYPE || LenMode(op) == BAD
  {}

  lemma DistDone(p: Codes, c: Conf, e: Entry, mode: Mode, length: nat, offset: nat, extra: nat, rest: seq<bool>)
    requires ValidCodes(p) && |p.dlens| <= MaxSymbols(DISTS) && c.mode == DIST && e.bits <= |c.rest|
    requires Answers(DISTS, p.dlens, LookUp(p.dlens, c.rest), e)
    requires mode == DistMode(e.op) && length == c.length && 3 <= length <= 258
    requires mode == DISTEXT ==> extra == OpExtra(e.op) && offset == e.val
    requires rest == c.rest[e.bits..]
    ensures Runs(p, c, Normal(Conf(mode, length, offset, extra, rest, c.out, c.seen)))
    ensures InRange(mode, length, offset, extra) && DistOp(e.op) && 1 <= e.bits
  {
    hide Step, Runs, LookUp, Answers, DistOp, ValidCodes, Bit16, Pow2;
    DistStep(p, c, e);
    RunsStep(p, c, AfterDist(c, e));
    assert AfterDist(c, e) == Normal(Conf(mode, length, offset, extra, rest, c.out, c.seen));
  }

  // Extra bits are one step, and stay in range.
  lemma LenExtDone(p: Codes, c: Conf, v: nat, offset: nat, extra: nat, rest: seq<bool>)
    requires c.mode == LENEXT && InRange(LENEXT, c.length, 0, c.extra) && c.extra <= |c.rest|
    requires v == Val(c.rest[..c.extra]) && rest == c.rest[c.extra..]
    ensures Runs(p, c, Normal(Conf(DIST, c.length + v, offset, extra, rest, c.out, c.seen)))
    ensures InRange(DIST, c.length + v, offset, extra)
  {
    hide Runs;
    RunsStep(p, c, Normal(Conf(DIST, c.length + v, offset, extra, rest, c.out, c.seen)));
  }

  lemma DistExtDone(p: Codes, c: Conf, v: nat, extra: nat, rest: seq<bool>)
    requires c.mode == DISTEXT && InRange(DISTEXT, c.length, c.offset, c.extra) && c.extra <= |c.rest|
    requires v == Val(c.rest[..c.extra]) && rest == c.rest[c.extra..]
    ensures Runs(p, c, Normal(Conf(MATCH, c.length, c.offset + v, extra, rest, c.out, c.seen)))
    ensures InRange(MATCH, c.length, c.offset + v, extra)
  {
    hide Runs;
    RunsStep(p, c, Normal(Conf(MATCH, c.length, c.offset + v, extra, rest, c.out, c.seen)));
  }

  lemma ExtraStuck(p: Codes, c: Conf)
    requires (c.mode == LENEXT || c.mode == DISTEXT) && |c.rest| < c.extra
    ensures Step(p, c) == None
  {}

  lemma LenStuck(p: Codes, c: Conf)
    requires c.mode == LEN && LookUp(p.llens, c.rest) == More
    ensures Step(p, c) == None
  {}

  lemma DistStuck(p: Codes, c: Conf)
    requires c.mode == DIST && LookUp(p.dlens, c.rest) == More
    ensures Step(p, c) == None
  {}

  lemma CodeSizes(p: Codes)
    requires ValidCodes(p)
    ensures |p.llens| <= MaxSymbols(LENS) && |p.dlens| <= MaxSymbols(DISTS)
  {
  }

  lemma DistStep(p: Codes, c: Conf, e: Entry)
    requires ValidCodes(p) && |p.dlens| <= MaxSymbols(DISTS) && c.mode == DIST && e.bits <= |c.rest|
    requires Answers(DISTS, p.dlens, LookUp(p.dlens, c.rest), e)
    ensures Step(p, c) == Some(AfterDist(c, e)) && DistOp(e.op) && 1 <= e.bits
    ensures DistMode(e.op) == DISTEXT ==> OpExtra(e.op) <= 13 && 1 <= e.val
    ensures DistMode(e.op) == DISTEXT ==> e.val + Pow2(OpExtra(e.op)) <= 32769
  {
    hide SymbolEntry, DistBase, DistExtra, LookUp, Pow2, Lo, Hi, ValidCodes;
    CodeSizes(p);
    match LookUp(p.dlens, c.rest)
    case Found(s) =>
      DistOps(s, e.bits);
    case Wrong =>
  }

  // ------------------------------------------------------------ the state

  // The n bytes at f in the window are the history from `back` bytes before its end on.
  ghost predicate FromWindow(w: seq<byte>, history: seq<byte>, back: nat, f: nat, n: nat) {
    && n <= back <= |history| && f + n <= |w|
    && w[f..f + n] == history[|history| - back..|history| - back + n]
  }

  lemma FewerFromWindow(w: seq<byte>, history: seq<byte>, back: nat, f: nat, n: nat, m: nat)
    requires FromWindow(w, history, back, f, n) && m <= n
    ensures FromWindow(w, history, back, f, m)
  {
    assert w[f..f + m] == w[f..f + n][..m];
    assert history[|history| - back..|history| - back + m] == history[|history| - back..|history| - back + n][..m];
  }

  class State {
    const src: Reader     // input and bit accumulator
    const win: Window
    var mode: Mode
    var length: nat
    var offset: nat
    var extra: nat
    var lencode: seq<Entry>
    var lenbits: nat
    var distcode: seq<Entry>
    var distbits: nat
    var dest: array<byte> // output buffer of the current call
    var start: nat        // where in it the call began to write
    var put: nat
    var left: nat
    ghost var codes: Codes     // the code lengths the tables were built from
    ghost var past: seq<byte>  // all output of earlier calls
    ghost var origin: Conf     // where decoding began, with all the input since
    ghost var lost: bool       // the window missed the output of the last call

    // At the start of a block whose tables have been built.
    constructor (wsize: nat, lencode: seq<Entry>, lenbits: nat, distcode: seq<Entry>, distbits: nat, ghost codes: Codes)
      requires wsize > 0 && ValidCodes(codes)
      requires Ready(lencode, lenbits, LENS, codes.llens) && Ready(distcode, distbits, DISTS, codes.dlens)
      ensures Valid() && fresh(src) && fresh(win) && fresh(win.window) && fresh(dest) && win.window.Length == wsize
      ensures mode == LEN && start == put && this.codes == codes && Out() == [] && src.Rest() == [] && win.whave == 0
      ensures origin == Conf(LEN, 0, 0, 0, [], [], 0)
    {
      src := new Reader();
      win := new Window(wsize);
      mode, length, offset, extra := LEN, 0, 0, 0;
      this.lencode, this.lenbits, this.distcode, this.distbits := lencode, lenbits, distcode, distbits;
      this.codes, past, lost := codes, [], false;
      dest := new byte[0];
      start, put, left := 0, 0, 0;
      origin := Conf(LEN, 0, 0, 0, [], [], 0);
    }

    ghost predicate Output()
      reads `dest, `start, `put, `left, `past, `lost, win, win.window
    {
      && win.Valid() && dest != win.window
      && start <= put && put + left <= dest.Length
      && (if lost then win.wsize == 0 else win.history == past)
      && win.whave <= |past|
    }

    ghost predicate Decoding()
      reads `codes, `lencode, `lenbits, `distcode, `distbits
    {
      && ValidCodes(codes)
      && Ready(lencode, lenbits, LENS, codes.llens)
      && Ready(distcode, distbits, DISTS, codes.dlens)
    }

    // Between code words less than a byte waits in the accumulator; a state that ran out
    // of input may have more, but then not all it needs.
    ghost predicate Lean()
      reads `mode, `extra, `codes, src
    {
      match mode
      case LEN => Undecided(codes.llens, src.hold, src.bits)
      case DIST => Undecided(codes.dlens, src.hold, src.bits)
      case LENEXT => src.bits < extra + 8
      case DISTEXT => src.bits < extra + 8
      case _ => src.bits < 8
    }

    ghost predicate Core()
      reads this, src, win, win.window
    {
      src.Valid() && Output() && Decoding() && InRange(mode, length, offset, extra) && (lost ==> mode == BAD)
    }

    ghost predicate Valid()
      reads this, src, win, win.window
    {
      Core() && Lean()
    }

    // Everything written so far, and how much of it a copy may reach.
    ghost function Out(): seq<byte>
      requires Output()
      reads `dest, `start, `put, `left, `past, `lost, win, win.window, dest
    {
      past + dest[start..put]
    }

    ghost function Seen(): nat
      requires Output()
      reads `dest, `start, `put, `left, `past, `lost, win, win.window
    {
      win.whave + (put - start)
    }

    // The configuration of the machine this state stands for.
    ghost function Abs(): Conf
      requires src.Valid() && Output()
      reads this, src, win, win.window, dest
    {
      Normal(Conf(mode, length, offset, extra, src.Rest(), Out(), Seen()))
    }

    lemma SizesOf()
      requires Decoding()
      ensures |codes.llens| <= MaxSymbols(LENS) && |codes.dlens| <= MaxSymbols(DISTS) && ValidCodes(codes)
      ensures Ready(lencode, lenbits, LENS, codes.llens) && Ready(distcode, distbits, DISTS, codes.dlens)
    {}

    lemma LessThanAByte()
      requires src.bits < 8
      ensures Lean()
    {}

    lemma SeenOut()
      requires Output()
      ensures Seen() <= |Out()|
    {}

    method PutByte(b: byte)
      requires Output() && left >= 1
      modifies dest, `put, `left
      ensures Output() && left == old(left) - 1 && put == old(put) + 1
      ensures Out() == old(Out()) + [b] && Seen() == old(Seen()) + 1
    {
      dest[put] := b;
      put, left := put + 1, left - 1;
      assert dest[start..put] == old(dest[start..put]) + [b];
    }

    // Copies a piece of a match `dist` back from where it lies.
    method CopyPiece(from: array<byte>, f: nat, n: nat, dist: nat, byThree: bool) returns (ghost piece: seq<byte>)
      requires Output() && 1 <= n <= left && f + n <= from.Length && dist >= 1
      requires PieceAt(this, dist, from, f, n) && !lost
      modifies dest, `put, `left
      ensures Output() && left == old(left) - n && put == old(put) + n
      ensures |piece| == n && Continues(old(Out()), dist, piece)
      ensures Out() == old(Out()) + piece && Seen() == old(Seen()) + n
    {
      hide Continues, FromWindow, Window.Valid;
      ghost var d, put0 := dest[..], put;
      CopyAny(from, f, n, byThree);
      piece := dest[put0..put];
      PieceCopied(past, win.window[..], d, dest[..], start, put0, dist, from == dest, f, n);
    }

    method CopyAny(from: array<byte>, f: nat, n: nat, byThree: bool)
      requires start <= put && put + left <= dest.Length && n <= left
      requires f + n <= from.Length && (from == dest ==> f < put)
      modifies dest, `put, `left
      ensures put == old(put) + n && left == old(left) - n
      ensures dest[..old(put)] == old(dest[..put])
      ensures dest[old(put)..put] == from[f..f + n]
    {
      if byThree { CopyThrees(from, f, n); } else { CopyBytes(from, f, n); }
    }

    // *out++ = *from++, n times: the bytes copied may be bytes this copy has written.
    method CopyBytes(from: array<byte>, f: nat, n: nat)
      requires start <= put && put + left <= dest.Length && n <= left
      requires f + n <= from.Length && (from == dest ==> f < put)
      modifies dest, `put, `left
      ensures put == old(put) + n && left == old(left) - n
      ensures dest[..old(put)] == old(dest[..put])
      ensures dest[old(put)..put] == from[f..f + n]
    {
      var i := 0;
      while i < n
        invariant 0 <= i <= n && put == old(put) + i && left == old(left) - i
        invariant dest[..old(put)] == old(dest[..put])
        invariant dest[old(put)..put] == from[f..f + i]
      {
        dest[put] := from[f + i];
        put, left := put + 1, left - 1;
        i := i + 1;
      }
    }

    // The same, three bytes a round.
    method CopyThrees(from: array<byte>, f: nat, n: nat)
      requires start <= put && put + left <= dest.Length && n <= left
      requires f + n <= from.Length && (from == dest ==> f < put)
      modifies dest, `put, `left
      ensures put == old(put) + n && left == old(left) - n
      ensures dest[..old(put)] == old(dest[..put])
      ensures dest[old(put)..put] == from[f..f + n]
    {
      var i, len := f, n;
      while len > 2
        invariant 0 <= len <= n && i == f + (n - len) && put == old(put) + (n - len) && left == old(left) - (n - len)
        invariant dest[..old(put)] == old(dest[..put])
        invariant dest[old(put)..put] == from[f..i]
      {
        CopyThree(from, f, i, old(put));
        i, len := i + 3, len - 3;
      }
      if len > 0 {
        CopyNext(from, f, i, old(put));
        if len > 1 { CopyNext(from, f, i + 1, old(put)); }
      }
    }

    // Three bytes of a copy that began at f and wrote from put0 on.
    method CopyThree(from: array<byte>, ghost f: nat, i: nat, ghost put0: nat)
      requires put + 3 <= dest.Length && f <= i && i + 3 <= from.Length && (from == dest ==> i < put)
      requires put0 <= put && put - put0 == i - f && left >= 3
      requires dest[put0..put] == from[f..i]
      modifies dest, `put, `left
      ensures put == old(put) + 3 && left == old(left) - 3
      ensures dest[..put0] == old(dest[..put0]) && dest[put0..put] == from[f..i + 3]
    {
      CopyNext(from, f, i, put0);
      CopyNext(from, f, i + 1, put0);
      CopyNext(from, f, i + 2, put0);
    }

    // One byte of a copy that began at f and wrote from put0 on.
    method CopyNext(from: array<byte>, ghost f: nat, i: nat, ghost put0: nat)
      requires put < dest.Length && f <= i < from.Length && (from == dest ==> i < put)
      requires put0 <= put && put - put0 == i - f && left >= 1
      requires dest[put0..put] == from[f..i]
      modifies dest, `put, `left
      ensures put == old(put) + 1 && left == old(left) - 1
      ensures dest[..put0] == old(dest[..put0]) && dest[put0..put] == from[f..i + 1]
    {
      ghost var d := dest[put0..put];
      dest[put] := from[i];
      assert dest[put0..put] == d;
      assert from[f..i] == d;
      put, left := put + 1, left - 1;
      assert dest[put0..put] == d + [from[i]];
      assert from[f..i + 1] == d + [from[i]];
    }
  }

  // The n bytes at f are what a match `dist` back copies next.
  ghost predicate PieceAt(st: State, dist: nat, from: array<byte>, f: nat, n: nat)
    reads st`dest, st`start, st`put, st.win, st.win.window
  {
    || (from == st.dest && dist <= st.put - st.start && f == st.put - dist)
    || (&& from == st.win.window && 0 <= st.put - st.start < dist
        && FromWindow(st.win.window[..], st.win.history, dist - (st.put - st.start), f, n))
  }

  // ------------------------------------------------------------ copied pieces

  // Writing a piece of the match leaves the state at the machine's configuration after it.
  lemma PieceDone(p: Codes, c: Conf, piece: seq<byte>, mode: Mode, length: nat, extra: nat, out: seq<byte>, seen: nat)
    requires c.mode == MATCH && InRange(MATCH, c.length, c.offset, 0) && c.offset <= c.seen <= |c.out|
    requires 1 <= |piece| <= c.length && Continues(c.out, c.offset, piece)
    requires length == c.length - |piece| && mode == if length == 0 then LEN else MATCH
    requires out == c.out + piece && seen == c.seen + |piece|
    ensures Runs(p, c, Normal(Conf(mode, length, c.offset, extra, c.rest, out, seen)))
    ensures InRange(mode, length, c.offset, extra)
  {
    hide Runs, Continues;
    PieceRuns(p, c, piece);
  }

  lemma TooFarBack(p: Codes, c: Conf, length: nat, offset: nat, extra: nat)
    requires c.mode == MATCH && 1 <= c.length && 1 <= c.offset && c.seen < c.offset && c.seen <= |c.out|
    ensures Runs(p, c, Normal(Conf(BAD, length, offset, extra, c.rest, c.out, c.seen)))
  {
    hide Runs;
    RunsStep(p, c, Normal(Conf(BAD, length, offset, extra, c.rest, c.out, c.seen)));
  }

  lemma LitDone(p: Codes, c: Conf, length: nat, offset: nat, extra: nat, out: seq<byte>, seen: nat)
    requires c.mode == LIT && c.length < 256 && out == c.out + [c.length] && seen == c.seen + 1
    ensures Runs(p, c, Normal(Conf(LEN, length, offset, extra, c.rest, out, seen)))
  {
    hide Runs;
    RunsStep(p, c, Normal(Conf(LEN, length, offset, extra, c.rest, out, seen)));
  }

  // From the output, as far back as this call has written.
  lemma PieceFromOutput(past: seq<byte>, d: seq<byte>, d': seq<byte>, start: nat, put: nat, offset: nat, n: nat)
    requires |d| == |d'| && start <= put && put + n <= |d'| && 1 <= offset <= put - start
    requires d'[..put] == d[..put]
    requires d'[put..put + n] == d'[put - offset..put - offset + n]
    ensures Continues(past + d[start..put], offset, d'[put..put + n])
  {
    var out, piece := past + d[start..put], d'[put..put + n];
    assert d'[start..put] == d[start..put];
    assert out + piece == past + d'[start..put + n];
    forall i | 0 <= i < n ensures piece[i] == (out + piece)[|out| - offset + i] {
      assert piece[i] == d'[put - offset..put - offset + n][i];
      assert (past + d'[start..put + n])[|out| - offset + i] == d'[put - offset + i];
    }
  }

  lemma PieceCopied(past: seq<byte>, w: seq<byte>, d: seq<byte>, d': seq<byte>, start: nat, put: nat, dist: nat,
                    within: bool, f: nat, n: nat)
    requires |d| == |d'| && start <= put && put + n <= |d'| && d'[..put] == d[..put] && 1 <= dist && 1 <= n
    requires within ==> dist <= put - start && f == put - dist && d'[put..put + n] == d'[f..f + n]
    requires !within ==> put - start < dist && FromWindow(w, past, dist - (put - start), f, n) && d'[put..put + n] == w[f..f + n]
    ensures Continues(past + d[start..put], dist, d'[put..put + n])
    ensures past + d'[start..put + n] == (past + d[start..put]) + d'[put..put + n]
  {
    hide Continues;
    if within {
      PieceFromOutput(past, d, d', start, put, dist, n);
    } else {
      FromHistory(past, d[start..put], dist, dist - (put - start), d'[put..put + n]);
    }
    OutGrows(past, d, d', start, put, n);
  }

  lemma OutGrows(past: seq<byte>, d: seq<byte>, d': seq<byte>, start: nat, put: nat, n: nat)
    requires |d| == |d'| && start <= put && put + n <= |d'| && d'[..put] == d[..put]
    ensures past + d'[start..put + n] == (past + d[start..put]) + d'[put..put + n]
  {
    assert d'[start..put] == d[start..put];
    assert d'[start..put + n] == d'[start..put] + d'[put..put + n];
  }
}
