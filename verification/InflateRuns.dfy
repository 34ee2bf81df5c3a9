// Runs of the decoding machine across calls: input may arrive in pieces, and a window
// of 32K bytes is as good as all of the output.

module InflateRuns {
  import opened Powers
  import opened Bits
  import opened Canonical
  import opened TableLayout
  import opened BlockDecoding
  import opened BitReader
  import opened InflateState

  // ------------------------------------------------------------ more input

  // c with more bits to read.
  function Feed(c: Conf, bits: seq<bool>): Conf {
    c.(rest := c.rest + bits)
  }

  ghost predicate BothUsable(p: Codes) {
    Usable(p.llens) && Usable(p.dlens) && ValidCodes(p)
  }

  lemma LookUpFeeds(lens: seq<bitlen>, bs: seq<bool>, more: seq<bool>)
    requires Usable(lens) && LookUp(lens, bs) != More
    ensures LookUp(lens, bs + more) == LookUp(lens, bs)
    ensures var n := if LookUp(lens, bs).Found? then lens[LookUp(lens, bs).sym] else 1;
            n <= |bs| && (bs + more)[n..] == bs[n..] + more
  {
    hide Lo, Huff, Val, Pow2, LookUp;
    if LookUp(lens, bs).Found? { LookUpExtends(lens, bs, more); } else { WrongExtends(lens, bs, more); }
  }

  lemma BitsFeed(bs: seq<bool>, more: seq<bool>, n: nat)
    requires n <= |bs|
    ensures (bs + more)[n..] == bs[n..] + more && (bs + more)[..n] == bs[..n]
  {}

  // A step that was possible stays the same step.
  lemma StepFeeds(p: Codes, c: Conf, more: seq<bool>)
    requires BothUsable(p) && Step(p, c).Some?
    ensures Step(p, Feed(c, more)) == Some(Feed(Step(p, c).value, more))
  {
    hide LookUp, LengthBase, LengthExtra, DistBase, DistExtra, Usable, ValidCodes, Val;
    if c.mode == LEN {
      LookUpFeeds(p.llens, c.rest, more);
    } else if c.mode == DIST {
      LookUpFeeds(p.dlens, c.rest, more);
    } else if c.mode == LENEXT || c.mode == DISTEXT {
      BitsFeed(c.rest, more, c.extra);
    }
  }

  lemma {:induction false} StepsFeed(p: Codes, c: Conf, n: nat, more: seq<bool>)
    requires BothUsable(p) && Steps(p, c, n).Some?
    ensures Steps(p, Feed(c, more), n) == Some(Feed(Steps(p, c, n).value, more))
    decreases n
  {
    hide Step, BothUsable, Feed;
    if n > 0 {
      StepFeeds(p, c, more);
      StepsFeed(p, Step(p, c).value, n - 1, more);
    }
  }

  // Whatever was decoded stays decoded when more input arrives.
  lemma RunsFeed(p: Codes, a: Conf, b: Conf, more: seq<bool>)
    requires BothUsable(p) && Runs(p, a, b)
    ensures Runs(p, Feed(a, more), Feed(b, more))
  {
    var n: nat :| Steps(p, a, n) == Some(b);
    StepsFeed(p, a, n, more);
  }

  // ------------------------------------------------------------ the window is enough

  // c if all of its output could be reached.
  function Full(c: Conf): Conf {
    c.(seen := |c.out|)
  }

  // Everything within 32K is in sight, and no distance will be longer.
  ghost predicate InSight(c: Conf) {
    && InRange(c.mode, c.length, c.offset, c.extra)
    && c.seen <= |c.out| && (c.seen < 32768 ==> c.seen == |c.out|)
  }

  lemma StepInRange(p: Codes, c: Conf)
    requires ValidCodes(p) && InRange(c.mode, c.length, c.offset, c.extra) && Step(p, c).Some?
    ensures var d := Step(p, c).value; InRange(d.mode, d.length, d.offset, d.extra)
  {
    hide LengthBase, LengthExtra, DistBase, DistExtra, ValidCodes, Pow2, Lo, Hi, Huff;
    CodeSizes(p);
    if c.mode == LEN && LookUp(p.llens, c.rest).Found? {
      LenOps(LookUp(p.llens, c.rest).sym, 0);
    } else if c.mode == DIST && LookUp(p.dlens, c.rest).Found? {
      DistOps(LookUp(p.dlens, c.rest).sym, 0);
    }
  }

  lemma StepSight(p: Codes, c: Conf)
    requires ValidCodes(p) && InSight(c) && Step(p, c).Some?
    ensures InSight(Step(p, c).value)
    ensures Step(p, Full(c)) == Some(Full(Step(p, c).value))
  {
    hide LookUp, LengthBase, LengthExtra, DistBase, DistExtra, ValidCodes, Val, Pow2, InRange;
    StepInRange(p, c);
    if c.mode == MATCH {
      MatchSight(p, c);
    } else if c.mode == LIT {
      LitSight(p, c);
    }
  }

  // A distance is at most 32K, so it stays in sight.
  lemma MatchSight(p: Codes, c: Conf)
    requires InSight(c) && c.mode == MATCH && Step(p, c).Some?
    ensures var d := Step(p, c).value; d.seen <= |d.out| && (d.seen < 32768 ==> d.seen == |d.out|)
    ensures Step(p, Full(c)) == Some(Full(Step(p, c).value))
  {}

  lemma LitSight(p: Codes, c: Conf)
    requires InSight(c) && c.mode == LIT && Step(p, c).Some?
    ensures var d := Step(p, c).value; d.seen <= |d.out| && (d.seen < 32768 ==> d.seen == |d.out|)
    ensures Step(p, Full(c)) == Some(Full(Step(p, c).value))
  {}

  lemma {:induction false} StepsSight(p: Codes, c: Conf, n: nat)
    requires ValidCodes(p) && InSight(c) && Steps(p, c, n).Some?
    ensures InSight(Steps(p, c, n).value)
    ensures Steps(p, Full(c), n) == Some(Full(Steps(p, c, n).value))
    decreases n
  {
    hide Step, InSight, Full, ValidCodes;
    if n > 0 {
      StepSight(p, c);
      StepsSight(p, Step(p, c).value, n - 1);
    }
  }

  // So a run over the window is a run over the whole output.
  lemma RunsSight(p: Codes, a: Conf, b: Conf)
    requires ValidCodes(p) && InSight(a) && Runs(p, a, b)
    ensures InSight(b) && Runs(p, Full(a), Full(b))
  {
    hide Step, InSight, Full, ValidCodes;
    var n: nat :| Steps(p, a, n) == Some(b);
    StepsSight(p, a, n);
  }

  // ------------------------------------------------------------ output only grows

  lemma StepOut(p: Codes, c: Conf)
    requires Step(p, c).Some?
    ensures |c.out| <= |Step(p, c).value.out| && Step(p, c).value.out[..|c.out|] == c.out
  {
    hide LookUp, LengthBase, LengthExtra, DistBase, DistExtra, Val;
  }

  lemma {:induction false} StepsOut(p: Codes, c: Conf, n: nat)
    requires Steps(p, c, n).Some?
    ensures c.out <= Steps(p, c, n).value.out
    decreases n
  {
    hide Step;
    if n > 0 {
      StepOut(p, c);
      StepsOut(p, Step(p, c).value, n - 1);
    }
  }

  lemma RunsOut(p: Codes, a: Conf, b: Conf)
    requires Runs(p, a, b)
    ensures a.out <= b.out
  {
    hide Step;
    var n: nat :| Steps(p, a, n) == Some(b);
    StepsOut(p, a, n);
  }
}
