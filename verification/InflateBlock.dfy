// States LEN to LIT of inflate() (deps/zlib/inflate.c:1028-1182): the careful path,
// which checks its input and output at every step. Each state runs the machine.

module InflateBlock {
  import opened Powers
  import opened Bits
  import opened TableLayout
  import opened BlockDecoding
  import opened BitReader
  import opened EntryLookup
  import opened CircularWindow
  import opened MatchCopy
  import opened InflateState

  // What the entry just read makes the decoder do.
  method SwitchLen(st: State, ghost p: Codes, ghost c: Conf, here: Entry, ghost e: Entry)
    requires ValidCodes(p) && |p.llens| <= MaxSymbols(LENS) && c.mode == LEN && e.bits <= |c.rest|
    requires Answers(LENS, p.llens, LookUp(p.llens, c.rest), e) && e.op == here.op
    modifies st`mode, st`length, st`extra
    ensures st.mode == LenMode(here.op) && st.length == here.val
    ensures st.mode == LENEXT ==> st.extra == OpExtra(here.op)
  {
    LenStep(p, c, e);
    LenTests(here.op);
    hide LenMode, Bit16, Bit32, Bit64, Step, LookUp, Answers, ValidCodes;
    st.length := here.val;
    if here.op == 0 {
      st.mode := LIT;
    } else if Bit32(here.op) {
      st.mode := TYPE;
    } else if Bit64(here.op) {
      st.mode := BAD;
    } else {
      st.extra := OpExtra(here.op);
      st.mode := LENEXT;
    }
  }

  method LenState(st: State) returns (ok: bool)
    requires st.Valid() && st.mode == LEN
    modifies st`mode, st`length, st`extra, st.src`next, st.src`hold, st.src`bits
    ensures st.Valid()
    ensures ok ==> Runs(st.codes, old(st.Abs()), st.Abs()) && |st.src.Rest()| < |old(st.src.Rest())|
    ensures !ok ==> st.Abs() == old(st.Abs()) && st.mode == LEN
    ensures !ok ==> st.src.next == |st.src.input| && Step(st.codes, st.Abs()).None?
  {
    hide State.Decoding, Ready, ValidCodes, State.Output, State.Out, State.Seen, Reader.Rest, Step, Answers, LookUp, Pow2, LenMode, LenOp, Runs;
    ghost var p, c := st.codes, st.Abs();
    st.SizesOf();
    var here: Entry;
    ghost var e: Entry;
    ok, here, e := NextEntry(st.src, st.lencode, st.lenbits, LENS, p.llens);
    if !ok {
      LenStuck(p, c);
      return;
    }
    SwitchLen(st, p, c, here, e);
    st.LessThanAByte();
    LenDone(p, c, e, st.mode, st.length, st.offset, st.extra, st.src.Rest());
  }

  // NEEDBITS, BITS and DROPBITS of the extra bits, skipped when there are none.
  method ReadExtra(st: State) returns (ok: bool, v: nat)
    requires st.src.Valid() && st.extra <= 13 && st.src.bits < st.extra + 8
    modifies st.src`next, st.src`hold, st.src`bits
    ensures st.src.Valid() && st.src.bits < if ok then 8 else st.extra + 8
    ensures ok ==> st.extra <= |old(st.src.Rest())| && st.src.Rest() == old(st.src.Rest())[st.extra..]
    ensures ok ==> v == Val(old(st.src.Rest())[..st.extra])
    ensures !ok ==> st.src.Rest() == old(st.src.Rest()) && st.src.next == |st.src.input| && |st.src.Rest()| < st.extra
  {
    ok, v := true, 0;
    if st.extra != 0 {
      ok := st.src.NeedBits(st.extra);
      if !ok {
        st.src.AllTaken();
        return;
      }
      v := st.src.TakeBits(st.extra);
    }
  }

  method LenExtState(st: State) returns (ok: bool)
    requires st.Valid() && st.mode == LENEXT
    modifies st`mode, st`length, st.src`next, st.src`hold, st.src`bits
    ensures st.Valid() && |st.src.Rest()| <= |old(st.src.Rest())|
    ensures ok ==> Runs(st.codes, old(st.Abs()), st.Abs()) && st.mode == DIST
    ensures !ok ==> st.Abs() == old(st.Abs()) && st.mode == LENEXT
    ensures !ok ==> st.src.next == |st.src.input| && Step(st.codes, st.Abs()).None?
  {
    hide State.Output, State.Out, State.Seen, State.Decoding, Reader.Valid, Reader.Rest, Step, Runs, Pow2, Val;
    ghost var p, c := st.codes, st.Abs();
    var v;
    ok, v := ReadExtra(st);
    if !ok {
      ExtraStuck(p, c);
      return;
    }
    st.length := st.length + v;
    st.mode := DIST;
    st.LessThanAByte();
    LenExtDone(p, c, v, st.offset, st.extra, st.src.Rest());
  }

  method DistState(st: State) returns (ok: bool)
    requires st.Valid() && st.mode == DIST
    modifies st`mode, st`offset, st`extra, st.src`next, st.src`hold, st.src`bits
    ensures st.Valid()
    ensures ok ==> Runs(st.codes, old(st.Abs()), st.Abs()) && |st.src.Rest()| < |old(st.src.Rest())|
    ensures !ok ==> st.Abs() == old(st.Abs()) && st.mode == DIST
    ensures !ok ==> st.src.next == |st.src.input| && Step(st.codes, st.Abs()).None?
  {
    hide State.Decoding, Ready, ValidCodes, State.Output, State.Out, State.Seen, Reader.Rest, Step, Answers, LookUp, Pow2, DistMode, DistOp, Runs;
    ghost var p, c := st.codes, st.Abs();
    st.SizesOf();
    var here: Entry;
    ghost var e: Entry;
    ok, here, e := NextEntry(st.src, st.distcode, st.distbits, DISTS, p.dlens);
    if !ok {
      DistStuck(p, c);
      return;
    }
    SwitchDist(st, p, c, here, e);
    st.LessThanAByte();
    DistDone(p, c, e, st.mode, st.length, st.offset, st.extra, st.src.Rest());
  }

  method SwitchDist(st: State, ghost p: Codes, ghost c: Conf, here: Entry, ghost e: Entry)
    requires ValidCodes(p) && |p.dlens| <= MaxSymbols(DISTS) && c.mode == DIST && e.bits <= |c.rest|
    requires Answers(DISTS, p.dlens, LookUp(p.dlens, c.rest), e) && e.op == here.op
    modifies st`mode, st`offset, st`extra
    ensures st.mode == DistMode(here.op)
    ensures st.mode == DISTEXT ==> st.extra == OpExtra(here.op) && st.offset == here.val
  {
    DistStep(p, c, e);
    DistTests(here.op);
    hide DistMode, Bit16, Bit64, Step, LookUp, Answers, ValidCodes;
    if Bit64(here.op) {
      st.mode := BAD;
    } else {
      st.offset := here.val;
      st.extra := OpExtra(here.op);
      st.mode := DISTEXT;
    }
  }

  method DistExtState(st: State) returns (ok: bool)
    requires st.Valid() && st.mode == DISTEXT
    modifies st`mode, st`offset, st.src`next, st.src`hold, st.src`bits
    ensures st.Valid() && |st.src.Rest()| <= |old(st.src.Rest())|
    ensures ok ==> Runs(st.codes, old(st.Abs()), st.Abs()) && st.mode == MATCH
    ensures !ok ==> st.Abs() == old(st.Abs()) && st.mode == DISTEXT
    ensures !ok ==> st.src.next == |st.src.input| && Step(st.codes, st.Abs()).None?
  {
    hide State.Output, State.Out, State.Seen, State.Decoding, Reader.Valid, Reader.Rest, Step, Runs, Pow2, Val;
    ghost var p, c := st.codes, st.Abs();
    var v;
    ok, v := ReadExtra(st);
    if !ok {
      ExtraStuck(p, c);
      return;
    }
    st.offset := st.offset + v;
    st.mode := MATCH;
    st.LessThanAByte();
    DistExtDone(p, c, v, st.extra, st.src.Rest());
  }

  method LitState(st: State) returns (ok: bool)
    requires st.Valid() && st.mode == LIT
    modifies st`mode, st`put, st`left, st.dest
    ensures st.put + st.left == old(st.put + st.left)
    ensures st.Valid()
    ensures ok ==> Runs(st.codes, old(st.Abs()), st.Abs()) && st.left < old(st.left)
    ensures !ok ==> st.Abs() == old(st.Abs()) && st.mode == LIT && st.left == 0
  {
    hide State.Output, State.Out, State.Seen, State.Decoding, Reader.Valid, Reader.Rest, Step, Runs, Pow2;
    ok := st.left != 0;
    if ok {
      ghost var p, c := st.codes, st.Abs();
      st.PutByte(st.length);
      st.mode := LEN;
      LitDone(p, c, st.length, st.offset, st.extra, st.Out(), st.Seen());
    }
  }

  // Where the next piece of the match lies, and how long it can be.
  method MatchSource(st: State) returns (from: array<byte>, f: nat, copy: nat)
    requires st.Output() && !st.lost && 1 <= st.offset <= st.Seen() && 1 <= st.length && 1 <= st.left
    ensures 1 <= copy <= st.length && copy <= st.left && f + copy <= from.Length
    ensures PieceAt(st, st.offset, from, f, copy)
  {
    hide Window.Valid, Holds, InRange, Pow2;
    copy := st.put - st.start;
    if st.offset > copy {
      ghost var back := st.offset - copy;
      f, copy := st.win.Locate(st.offset - copy);
      from := st.win.window;
      ghost var whole := copy;
      if copy > st.length { copy := st.length; }
      if copy > st.left { copy := st.left; }
      FewerFromWindow(from[..], st.win.history, back, f, whole, copy);
    } else {
      from, f := st.dest, st.put - st.offset;
      copy := st.length;
      if copy > st.left { copy := st.left; }
    }
  }

  method CopyMatch(st: State)
    requires st.Valid() && st.mode == MATCH && st.offset <= st.Seen() && 1 <= st.left
    modifies st`mode, st`length, st`put, st`left, st.dest
    ensures st.put + st.left == old(st.put + st.left)
    ensures st.Valid() && st.left < old(st.left) && Runs(st.codes, old(st.Abs()), st.Abs())
  {
    hide State.Output, State.Out, State.Seen, State.Decoding, Reader.Valid, Reader.Rest, Step, Runs, Pow2, Continues, PieceAt;
    st.SeenOut();
    ghost var p, c := st.codes, st.Abs();
    var from, f, copy := MatchSource(st);
    st.length := st.length - copy;
    ghost var piece := st.CopyPiece(from, f, copy, st.offset, false);
    if st.length == 0 { st.mode := LEN; }
    PieceDone(p, c, piece, st.mode, st.length, st.extra, st.Out(), st.Seen());
  }

  method RejectMatch(st: State)
    requires st.Valid() && st.mode == MATCH && st.Seen() < st.offset
    modifies st`mode
    ensures st.Valid() && st.mode == BAD && Runs(st.codes, old(st.Abs()), st.Abs())
  {
    hide State.Output, State.Out, State.Seen, State.Decoding, Reader.Valid, Reader.Rest, Step, Runs, Pow2;
    st.SeenOut();
    ghost var p, c := st.codes, st.Abs();
    st.mode := BAD;
    TooFarBack(p, c, st.length, st.offset, st.extra);
  }

  method MatchState(st: State) returns (ok: bool)
    requires st.Valid() && st.mode == MATCH
    modifies st`mode, st`length, st`put, st`left, st.dest
    ensures st.put + st.left == old(st.put + st.left)
    ensures st.Valid()
    ensures ok ==> Runs(st.codes, old(st.Abs()), st.Abs())
    ensures ok ==> st.left < old(st.left) || (st.mode == BAD && st.left == old(st.left))
    ensures !ok ==> st.Abs() == old(st.Abs()) && st.mode == MATCH && st.left == 0
  {
    hide State.Out, State.Decoding, Reader.Valid, Reader.Rest, Step, Runs, Pow2;
    ok := st.left != 0;
    if ok {
      var copy := st.put - st.start;
      if st.offset > copy && st.offset - copy > st.win.whave {
        RejectMatch(st);
      } else {
        CopyMatch(st);
      }
    }
  }
}
