// The whole way round: what the matcher tallies, compress_block writes and the decoder
// reads is the text again.

module RoundTrip {
  import opened Bits
  import opened Canonical
  import opened BlockDecoding
  import opened Tokens
  import opened CodeTables
  import opened CompressBlock
  import opened DeflateState
  import opened InflateState
  import opened InflateRuns
  import opened Inflate

  lemma {:induction false} ExpandConcat(out: seq<byte>, ts: seq<Token>, us: seq<Token>)
    requires AllReach(out, ts + us)
    ensures AllReach(out, ts) && AllReach(Expand(out, ts), us)
    ensures Expand(out, ts + us) == Expand(Expand(out, ts), us)
    decreases |ts|
  {
    if |ts| == 0 {
      assert ts + us == us;
    } else {
      assert (ts + us)[1..] == ts[1..] + us;
      ExpandConcat(ExpandOne(out, ts[0]), ts[1..], us);
    }
  }

  // With all of the output in reach, every token that expands is in sight.
  lemma {:induction false} AllInSight(out: seq<byte>, ts: seq<Token>)
    requires AllReach(out, ts)
    ensures WithinSight(out, |out|, ts)
    decreases |ts|
  {
    if |ts| > 0 { AllInSight(ExpandOne(out, ts[0]), ts[1..]); }
  }

  // The tokens of one block of a stream, written by compress_block after `before` was
  // decoded, decode to the part of the text they stand for.
  lemma BlockDecodes(t: Tables, p: Codes, before: seq<Token>, ts: seq<Token>, text: seq<byte>, n: nat, m: nat, maxDist: nat,
                     c: Conf, more: seq<bool>)
    returns (c': Conf)
    requires Spells(before, text, n, maxDist) && Spells(before + ts, text, m, maxDist)
    requires ValidCodes(p) && Ready(t) && AllEncodable(t, p, ts) && Coded(p.llens, END_BLOCK)
    requires c.mode == LEN && c.rest == (TokensBits(t, p, ts) + CodeBits(p.llens, END_BLOCK)) + more
    requires c.out == text[..n] && c.seen == n
    ensures Runs(p, c, c') && c'.mode == TYPE && c'.rest == more && c'.out == text[..m]
  {
    hide Runs, Ready, ValidCodes, TokensBits, CodeBits, AllEncodable;
    ExpandConcat([], before, ts);
    AllInSight(c.out, ts);
    c' := BlockRuns(t, p, c, ts, more);
  }

  // A decoder that was given those bits, in any pieces and by either of its paths, and can
  // go no further has written exactly that text, and left the bits after the block.
  lemma DecoderGetsText(t: Tables, ts: seq<Token>, text: seq<byte>, maxDist: nat, st: State, more: seq<bool>)
    requires Spells(ts, text, |text|, maxDist) && Session(st)
    requires Ready(t) && AllEncodable(t, st.codes, ts) && Coded(st.codes.llens, END_BLOCK)
    requires st.origin == Conf(LEN, 0, 0, 0, (TokensBits(t, st.codes, ts) + CodeBits(st.codes.llens, END_BLOCK)) + more, [], 0)
    requires Step(st.codes, Full(st.Abs())).None?
    ensures st.mode == TYPE && st.Out() == text && st.src.Rest() == more
  {
    hide Runs, Ready, TokensBits, CodeBits, AllEncodable, Spells;
    var p := st.codes;
    NothingSpelled(ts, text, maxDist);
    var c := BlockDecodes(t, p, [], ts, text, 0, |text|, maxDist, st.origin, more);
    RunsOneWay(p, st.origin, c, Full(st.Abs()));
    assert text[..|text|] == text;
  }

  lemma NothingSpelled(ts: seq<Token>, text: seq<byte>, maxDist: nat)
    ensures Spells([], text, 0, maxDist) && [] + ts == ts && text[..0] == []
  {}
}
