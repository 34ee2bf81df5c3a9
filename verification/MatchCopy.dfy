// Copying a match in pieces, from the window and from the output (section 3.2.3 of
// RFC 1951): each piece is a run of the decoding machine's single-byte steps.

module MatchCopy {
  import opened Bits
  import opened BlockDecoding
  import opened Tokens

  // Written after out, every byte of piece is the one `offset` before it.
  ghost predicate Continues(out: seq<byte>, offset: nat, piece: seq<byte>) {
    && 1 <= offset <= |out|
    && forall i :: 0 <= i < |piece| ==> piece[i] == (out + piece)[|out| - offset + i]
  }

  function AfterPiece(c: Conf, piece: seq<byte>): Conf
    requires |piece| <= c.length
  {
    Normal(c.(mode := if |piece| == c.length then LEN else MATCH, length := c.length - |piece|,
              out := c.out + piece, seen := c.seen + |piece|))
  }

  lemma ContinuesFront(out: seq<byte>, offset: nat, piece: seq<byte>)
    requires |piece| > 0 && Continues(out, offset, piece)
    ensures var front := piece[..|piece| - 1];
            Continues(out, offset, front) &&
            out + piece == (out + front) + [(out + front)[|out + front| - offset]]
  {
    var front := piece[..|piece| - 1];
    assert forall i :: 0 <= i < |out| + |front| ==> (out + front)[i] == (out + piece)[i];
    assert piece == front + [piece[|front|]];
  }

  // Any piece of the match is a run of single-byte steps.
  lemma {:induction false} PieceRuns(p: Codes, c: Conf, piece: seq<byte>)
    requires c.mode == MATCH && 1 <= |piece| <= c.length && c.offset <= c.seen <= |c.out|
    requires Continues(c.out, c.offset, piece)
    ensures Runs(p, c, AfterPiece(c, piece))
    decreases |piece|
  {
    var front := piece[..|piece| - 1];
    ContinuesFront(c.out, c.offset, piece);
    hide Continues, Runs, Steps;
    if front == [] {
      assert c.out + front == c.out;
      RunsStep(p, c, AfterPiece(c, piece));
    } else {
      PieceRuns(p, c, front);
      RunsThen(p, c, AfterPiece(c, front), AfterPiece(c, piece));
    }
  }

  // A piece taken from the history: `back` bytes before its end, which is `produced`
  // bytes before the end of the output.
  lemma FromHistory(history: seq<byte>, produced: seq<byte>, offset: nat, back: nat, piece: seq<byte>)
    requires offset == back + |produced| && 1 <= |piece| <= back <= |history|
    requires piece == history[|history| - back..|history| - back + |piece|]
    ensures Continues(history + produced, offset, piece)
  {
    var out := history + produced;
    forall i | 0 <= i < |piece| ensures piece[i] == (out + piece)[|out| - offset + i] {
      assert (out + piece)[|out| - offset + i] == history[|history| - back + i];
    }
  }
}
