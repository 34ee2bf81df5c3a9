// Decoding a compressed block over any number of inflate() calls
// (deps/zlib/inflate.c:603-607, 1028-1182, 1242-1260): input and output room arrive in
// pieces of any size, and each call leaves its output in the window.

module Inflate {
  import opened Powers
  import opened Bits
  import opened TableLayout
  import opened BlockDecoding
  import opened BitReader
  import opened EntryLookup
  import opened CircularWindow
  import opened InflateState
  import opened InflateBlock
  import opened FastPath
  import opened InflateRuns

  // Why a call stops: the block is over, the output room is used up, or the input is.
  ghost predicate Stopped(st: State)
    requires st.src.Valid() && st.Output()
    reads st, st.src, st.win, st.win.window, st.dest
  {
    || st.mode == TYPE || st.mode == BAD
    || ((st.mode == LIT || st.mode == MATCH) && st.left == 0)
    || (st.src.next == |st.src.input| && Step(st.codes, st.Abs()).None?)
  }

  function Rank(mode: Mode): nat {
    match mode case LENEXT => 2 case DISTEXT => 3 case MATCH => 2 case _ => 1
  }

  // One turn of the switch.
  method Turn(st: State) returns (ok: bool)
    requires st.Valid() && st.mode != TYPE && st.mode != BAD
    modifies st`mode, st`length, st`offset, st`extra, st`put, st`left, st.dest, st.src`next, st.src`hold, st.src`bits
    ensures st.put + st.left == old(st.put + st.left)
    ensures st.Valid()
    ensures if ok then Runs(st.codes, old(st.Abs()), st.Abs()) else st.Abs() == old(st.Abs()) && Stopped(st)
    ensures ok ==> Progress(old(|st.src.Rest()|), old(st.left), old(st.mode), |st.src.Rest()|, st.left, st.mode)
  {
    hide State.Output, State.Decoding, State.Out, State.Seen, Reader.Rest, Runs, Step, Pow2;
    match st.mode
    case LEN =>
      if |st.src.input| - st.src.next >= 6 && st.left >= 258 {
        InflateFast(st);
        ok := true;
      } else {
        ok := LenState(st);
      }
    case LENEXT => ok := LenExtState(st);
    case DIST => ok := DistState(st);
    case DISTEXT => ok := DistExtState(st);
    case MATCH => ok := MatchState(st);
    case LIT => ok := LitState(st);
  }

  // The measure that shows the switch cannot turn forever.
  predicate Progress(rest: nat, left: nat, mode: Mode, rest': nat, left': nat, mode': Mode) {
    rest' < rest || (rest' == rest && (left' < left || (left' == left && Rank(mode') < Rank(mode))))
  }

  // The whole switch, up to where the call has to stop.
  method RunStates(st: State)
    requires st.Valid()
    modifies st`mode, st`length, st`offset, st`extra, st`put, st`left, st.dest, st.src`next, st.src`hold, st.src`bits
    ensures st.put + st.left == old(st.put + st.left)
    ensures st.Valid() && Runs(st.codes, old(st.Abs()), st.Abs()) && Stopped(st)
  {
    hide State.Output, State.Decoding, State.Out, State.Seen, State.Lean, Reader.Rest, Runs, Step, Pow2;
    ghost var p, c := st.codes, st.Abs();
    RunsZero(p, c);
    while st.mode != TYPE && st.mode != BAD
      invariant st.Valid() && Runs(p, c, st.Abs()) && st.put + st.left == old(st.put + st.left)
      decreases |st.src.Rest()|, st.left, Rank(st.mode)
    {
      ghost var d := st.Abs();
      var ok := Turn(st);
      if !ok { return; }
      RunsTrans(p, c, d, st.Abs());
    }
  }

  // Between calls: all output has been counted.
  ghost predicate Idle(st: State)
    reads st, st.src, st.win, st.win.window
  {
    st.Valid() && st.start == st.put
  }

  // The new input follows what was left of the old.
  method Begin(st: State, more: seq<byte>, dest: array<byte>, at: nat, avail: nat)
    requires Idle(st) && at + avail <= dest.Length && dest != st.win.window
    modifies st`dest, st`start, st`put, st`left, st.src`input, st.src`next
    ensures st.Valid() && st.Abs() == Feed(old(st.Abs()), BytesToBits(more))
    ensures st.dest == dest && st.start == st.put == at && st.left == avail
  {
    hide State.Decoding, Reader.Rest, Reader.Valid, Window.Valid, Pow2, Undecided;
    ghost var out := st.Out();
    st.src.Feed(more);
    st.dest, st.start, st.put, st.left := dest, at, at, avail;
    assert st.Out() == out;
  }

  function Min(a: nat, b: nat): nat { if a < b then a else b }

  // inf_leave: the window learns what was written, unless it is still unused and the
  // block turned out invalid.
  method Leave(st: State)
    requires st.Valid()
    modifies st`past, st`start, st`lost, st.win, st.win.window
    ensures Idle(st) && st.win.window == old(st.win.window) && st.dest == old(st.dest)
    ensures st.src.Rest() == old(st.src.Rest()) && st.Out() == old(st.Out())
    ensures !st.lost ==> st.Seen() == Min(|st.Out()|, st.win.window.Length)
  {
    hide State.Decoding, Reader.Rest, Reader.Valid, Pow2, Undecided, InRange, Holds, InOrder;
    ghost var out := st.Out();
    var win := st.win;
    var written := st.dest[st.start..st.put];
    if win.wsize != 0 || (st.put != st.start && st.mode != BAD) {
      win.UpdateWindow(written);
      if !st.lost { assert win.history == out; }
    } else {
      st.lost := st.lost || st.put != st.start;
    }
    win.HaveIs();
    st.past := st.past + written;
    st.start := st.put;
    assert st.dest[st.start..st.put] == [];
  }

  // One call: the machine runs on from where the last call left it, over the new input,
  // writes its output to dest, and stops only for a reason.
  method InflateCall(st: State, more: seq<byte>, dest: array<byte>, at: nat, avail: nat) returns (ghost c: Conf)
    requires Idle(st) && at + avail <= dest.Length && dest != st.win.window
    modifies st`mode, st`length, st`offset, st`extra, st`past, st`lost, st`dest, st`start, st`put, st`left,
             st.src, st.win, st.win.window, dest
    ensures Idle(st) && st.dest == dest && st.win.window == old(st.win.window)
    ensures Runs(st.codes, Feed(old(st.Abs()), BytesToBits(more)), c)
    ensures st.Abs() == c.(seen := st.Seen()) && (!st.lost ==> st.Seen() == Min(|c.out|, st.win.window.Length))
    ensures c.mode == TYPE || c.mode == BAD || Step(st.codes, c).None? ||
            ((c.mode == LIT || c.mode == MATCH) && st.put == at + avail)
    ensures c.mode == LEN || c.mode == LENEXT || c.mode == DIST || c.mode == DISTEXT ==> st.src.next == |st.src.input|
    ensures at <= st.put <= at + avail && c.out == old(st.Out()) + dest[at..st.put]
  {
    hide State.Decoding, State.Lean, State.Seen, Reader.Rest, Reader.Valid, Window.Valid, Runs, Step, Pow2, BytesToBits;
    ghost var out := st.Out();
    Begin(st, more, dest, at, avail);
    RunStates(st);
    c := st.Abs();
    Leave(st);
  }

  // ------------------------------------------------------------ any number of calls

  // With a 32K window: where the decoder is now is where the machine gets from the start
  // of the block, on all the input so far at once and with all the output in reach.
  ghost predicate Session(st: State)
    reads st, st.src, st.win, st.win.window, st.dest
  {
    && Idle(st) && BothUsable(st.codes) && st.win.window.Length >= 32768
    && Runs(st.codes, st.origin, Full(st.Abs()))
  }

  lemma NewSession(st: State)
    requires Idle(st) && st.win.window.Length >= 32768
    requires st.mode == LEN && st.origin == Conf(LEN, 0, 0, 0, [], [], 0)
    requires st.Out() == [] && st.src.Rest() == [] && st.win.whave == 0
    ensures Session(st)
  {
    hide Runs, Ready, ValidCodes;
    st.SizesOf();
    ReadyUsable(st.lencode, st.lenbits, LENS, st.codes.llens);
    ReadyUsable(st.distcode, st.distbits, DISTS, st.codes.dlens);
    RunsZero(st.codes, st.origin);
  }

  lemma IdleSight(st: State)
    requires Idle(st) && st.win.window.Length >= 32768
    ensures st.lost ==> st.mode == BAD
    ensures !st.lost ==> InSight(st.Abs())
  {
    hide Holds, State.Decoding, Reader.Valid, State.Lean, Pow2;
    st.win.HaveIs();
    assert st.dest[st.start..st.put] == [];
  }

  lemma BadStays(p: Codes, a: Conf, c: Conf)
    requires a.mode == BAD && Runs(p, a, c)
    ensures c == a
  {
    var n: nat :| Steps(p, a, n) == Some(c);
  }

  lemma SightUnderFeed(c: Conf, bits: seq<bool>)
    ensures InSight(c) ==> InSight(Feed(c, bits))
    ensures Full(Feed(c, bits)) == Feed(Full(c), bits)
  {}

  // One call extends the run, however the input and the room are divided.
  lemma SessionGoesOn(p: Codes, origin: Conf, a: Conf, bits: seq<bool>, c: Conf, d: Conf)
    requires BothUsable(p) && Runs(p, origin, Full(a)) && Runs(p, Feed(a, bits), c)
    requires a.mode == BAD || InSight(a)
    requires Full(c) == Full(d)
    ensures Runs(p, Feed(origin, bits), Full(d))
  {
    hide Runs, InSight;
    RunsFeed(p, origin, Full(a), bits);
    SightUnderFeed(a, bits);
    if a.mode == BAD {
      BadStays(p, Feed(a, bits), c);
    } else {
      RunsSight(p, Feed(a, bits), c);
      RunsTrans(p, Feed(origin, bits), Full(Feed(a, bits)), Full(c));
    }
  }

  method Decode(st: State, more: seq<byte>, dest: array<byte>, at: nat, avail: nat)
    requires Session(st) && at + avail <= dest.Length && dest != st.win.window
    modifies st, st.src, st.win, st.win.window, dest
    ensures Session(st) && st.dest == dest && st.codes == old(st.codes) && st.win.window == old(st.win.window)
    ensures st.origin == Feed(old(st.origin), BytesToBits(more))
    ensures at <= st.put <= at + avail && st.Out() == old(st.Out()) + dest[at..st.put]
  {
    hide State.Output, State.Decoding, State.Lean, State.Out, State.Seen, Runs, Step, BytesToBits, BothUsable, Pow2;
    ghost var p, a := st.codes, st.Abs();
    IdleSight(st);
    ghost var c := InflateCall(st, more, dest, at, avail);
    SessionGoesOn(p, st.origin, a, BytesToBits(more), c, st.Abs());
    st.origin := Feed(st.origin, BytesToBits(more));
  }

  // Two decoders given the same block, the same total input, but any other division into
  // calls: one's output begins with the other's, and once neither can go on they agree.
  lemma CallsDoNotMatter(a: State, b: State)
    requires Session(a) && Session(b) && a.codes == b.codes && a.origin == b.origin
    ensures a.Out() <= b.Out() || b.Out() <= a.Out()
    ensures Step(a.codes, Full(a.Abs())).None? && Step(b.codes, Full(b.Abs())).None? ==>
              a.Out() == b.Out() && a.mode == b.mode && a.src.Rest() == b.src.Rest()
  {
    hide Runs, Step;
    var p, c, d := a.codes, Full(a.Abs()), Full(b.Abs());
    RunsOneWay(p, a.origin, c, d);
    if Runs(p, c, d) { RunsOut(p, c, d); } else { RunsOut(p, d, c); }
  }
}
