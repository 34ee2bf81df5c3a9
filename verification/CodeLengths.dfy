// State CODELENS of inflate() (deps/zlib/inflate.c:939-985): reading the runs of the two
// trees' lengths, and the proof that it reads back what send_tree sent.

module CodeLengths {
  import opened Powers
  import opened Bits
  import opened Canonical
  import opened TableLayout
  import opened BlockDecoding
  import opened BitReader
  import opened EntryLookup
  import opened LengthRuns
  import opened TreeSending

  // The lengths read so far, the bits still to read, and whether a repeat was wrong.
  datatype LenConf = LenConf(bad: bool, lens: seq<bitlen>, rest: seq<bool>)

  function RepeatWidth(s: nat): nat { if s == 16 then 2 else if s == 17 then 3 else 7 }

  function RepeatBase(s: nat): nat { if s == 18 then 11 else 3 }

  // One turn of the loop, when the lengths of total symbols are to be read.
  ghost function LenStep(clens: seq<bitlen>, total: nat, c: LenConf): Option<LenConf> {
    if c.bad || |c.lens| >= total then None
    else
      match LookUp(clens, c.rest)
      case More => None
      case Wrong => Some(c.(lens := c.lens + [0], rest := c.rest[1..])) // as the invalid entry reads
      case Found(s) =>
        var l, x := clens[s], RepeatWidth(s);
        if s < 16 then Some(c.(lens := c.lens + [s], rest := c.rest[l..]))
        else if |c.rest| < l + x then None
        else if s == 16 && c.lens == [] then Some(c.(bad := true, rest := c.rest[l..]))
        else
          var n := RepeatBase(s) + Val(c.rest[l..l + x]);
          if |c.lens| + n > total then Some(c.(bad := true, rest := c.rest[l + x..]))
          else
            Some(c.(lens := c.lens + Repeat(if s == 16 then c.lens[|c.lens| - 1] else 0, n), rest := c.rest[l + x..]))
  }

  ghost function LenSteps(clens: seq<bitlen>, total: nat, c: LenConf, n: nat): Option<LenConf>
    decreases n
  {
    if n == 0 then Some(c)
    else match LenStep(clens, total, c) case None => None case Some(d) => LenSteps(clens, total, d, n - 1)
  }

  ghost predicate LenRuns(clens: seq<bitlen>, total: nat, c: LenConf, d: LenConf) {
    exists n: nat :: LenSteps(clens, total, c, n) == Some(d)
  }

  lemma LenRunsZero(clens: seq<bitlen>, total: nat, c: LenConf)
    ensures LenRuns(clens, total, c, c)
  {
    assert LenSteps(clens, total, c, 0) == Some(c);
  }

  lemma {:induction false} LenStepsAdd(clens: seq<bitlen>, total: nat, c: LenConf, m: nat, n: nat)
    requires LenSteps(clens, total, c, m).Some?
    ensures LenSteps(clens, total, c, m + n) == LenSteps(clens, total, LenSteps(clens, total, c, m).value, n)
    decreases m
  {
    hide LenStep;
    if m > 0 { LenStepsAdd(clens, total, LenStep(clens, total, c).value, m - 1, n); }
  }

  lemma LenRunsThen(clens: seq<bitlen>, total: nat, c: LenConf, d: LenConf, e: LenConf)
    requires LenRuns(clens, total, c, d) && LenStep(clens, total, d) == Some(e)
    ensures LenRuns(clens, total, c, e)
  {
    hide LenStep;
    var m: nat :| LenSteps(clens, total, c, m) == Some(d);
    assert LenSteps(clens, total, e, 0) == Some(e);
    assert LenSteps(clens, total, d, 1) == Some(e);
    LenStepsAdd(clens, total, c, m, 1);
  }

  lemma LenRunsTrans(clens: seq<bitlen>, total: nat, c: LenConf, d: LenConf, e: LenConf)
    requires LenRuns(clens, total, c, d) && LenRuns(clens, total, d, e)
    ensures LenRuns(clens, total, c, e)
  {
    hide LenStep;
    var m: nat :| LenSteps(clens, total, c, m) == Some(d);
    var n: nat :| LenSteps(clens, total, d, n) == Some(e);
    LenStepsAdd(clens, total, c, m, n);
  }

  // ------------------------------------------------------------ the round trip

  // One run is one turn.
  lemma RunReads(clens: seq<bitlen>, total: nat, lens: seq<bitlen>, r: Run, more: seq<bool>)
    requires Kraft(clens) <= Pow2(15) && Coded(clens, SymbolOf(r)) && Legal(r) && Follows(lens, r)
    requires |ExpandRun(lens, r)| <= total && |lens| < total
    ensures LenStep(clens, total, LenConf(false, lens, RunBits(clens, r) + more)) == Some(LenConf(false, ExpandRun(lens, r), more))
  {
    hide LookUp, CodeBits, Val, BitsOf, Kraft, Pow2;
    var s := SymbolOf(r);
    var word, x := CodeBits(clens, s), ExtraBits(r);
    Assoc(word, x, more);
    Reads(clens, s, x + more);
    RunExtra(r);
    var rest := RunBits(clens, r) + more;
    assert rest == word + (x + more);
    SplitBits(word, x, more);
  }

  lemma Reads(clens: seq<bitlen>, s: nat, more: seq<bool>)
    requires Kraft(clens) <= Pow2(15) && Coded(clens, s)
    ensures LookUp(clens, CodeBits(clens, s) + more) == Found(s)
  {
    CodeBitsMatch(clens, s, more);
    LookUpIs(clens, CodeBits(clens, s) + more, s);
  }

  lemma SplitBits(a: seq<bool>, b: seq<bool>, c: seq<bool>)
    ensures (a + (b + c))[|a|..] == b + c
    ensures (a + (b + c))[|a|..|a| + |b|] == b && (a + (b + c))[|a| + |b|..] == c
  {}

  // The extra bits give back the count.
  lemma RunExtra(r: Run)
    requires Legal(r)
    ensures r.Plain? || (|ExtraBits(r)| == RepeatWidth(SymbolOf(r)) && RepeatBase(SymbolOf(r)) + Val(ExtraBits(r)) == r.n)
  {
    Widths();
    match r
    case Plain(_) =>
    case Again(n) => ValBitsOf(n - 3, 2); LoSmall(n - 3, 2);
    case Zeros(n) =>
      if n <= 10 { ValBitsOf(n - 3, 3); LoSmall(n - 3, 3); } else { ValBitsOf(n - 11, 7); LoSmall(n - 11, 7); }
  }

  lemma ExpandGrows(lens: seq<bitlen>, r: Run)
    requires Follows(lens, r) && Legal(r)
    ensures |ExpandRun(lens, r)| > |lens|
  {}

  lemma {:induction false} ExpandsGrow(lens: seq<bitlen>, rs: seq<Run>)
    requires AllFollow(lens, rs)
    ensures |ExpandRuns(lens, rs)| >= |lens|
    decreases |rs|
  {
    if rs != [] {
      ExpandGrows(lens, rs[0]);
      ExpandsGrow(ExpandRun(lens, rs[0]), rs[1..]);
    }
  }

  // What was sent for a list of runs is read back as what the runs stand for.
  lemma {:induction false} RunsRead(clens: seq<bitlen>, total: nat, lens: seq<bitlen>, rs: seq<Run>, more: seq<bool>)
    requires Kraft(clens) <= Pow2(15) && Sendable(clens, rs) && AllFollow(lens, rs) && |ExpandRuns(lens, rs)| <= total
    ensures LenRuns(clens, total, LenConf(false, lens, RunsBits(clens, rs) + more), LenConf(false, ExpandRuns(lens, rs), more))
    decreases |rs|
  {
    hide LenStep, LenRuns, RunBits, ExpandRun, Kraft, Pow2;
    var c := LenConf(false, lens, RunsBits(clens, rs) + more);
    LenRunsZero(clens, total, c);
    if rs == [] {
      assert [] + more == more;
    } else {
      var later := RunsBits(clens, rs[1..]);
      Assoc(RunBits(clens, rs[0]), later, more);
      ExpandGrows(lens, rs[0]);
      ExpandsGrow(ExpandRun(lens, rs[0]), rs[1..]);
      RunReads(clens, total, lens, rs[0], later + more);
      var d := LenConf(false, ExpandRun(lens, rs[0]), later + more);
      LenRunsThen(clens, total, c, c, d);
      RunsRead(clens, total, ExpandRun(lens, rs[0]), rs[1..], more);
      LenRunsTrans(clens, total, c, d, LenConf(false, ExpandRuns(lens, rs), more));
    }
  }

  // The literal tree and then the distance tree, as send_all_trees sends them, are read back
  // as the one list of all lengths; nothing after them is touched.
  lemma TreesRead(clens: seq<bitlen>, lit: seq<bitlen>, dist: seq<bitlen>, more: seq<bool>)
    requires Kraft(clens) <= Pow2(15) && Sendable(clens, RunsOf(lit)) && Sendable(clens, RunsOf(dist))
    ensures LenRuns(clens, |lit| + |dist|,
                    LenConf(false, [], (RunsBits(clens, RunsOf(lit)) + RunsBits(clens, RunsOf(dist))) + more),
                    LenConf(false, lit + dist, more))
  {
    hide LenRuns, RunsOf, RunsBits, Kraft, Pow2, Sendable;
    var total, a, b := |lit| + |dist|, RunsBits(clens, RunsOf(lit)), RunsBits(clens, RunsOf(dist));
    Assoc(a, b, more);
    RunsExpand([], lit);
    assert [] + lit == lit;
    RunsExpand(lit, dist);
    RunsRead(clens, total, [], RunsOf(lit), b + more);
    RunsRead(clens, total, lit, RunsOf(dist), more);
    LenRunsTrans(clens, total, LenConf(false, [], (a + b) + more), LenConf(false, lit, b + more), LenConf(false, lit + dist, more));
  }

  // ------------------------------------------------------------ the reading loop

  // A table for the code length code has no second level.
  lemma CodesTell(t: seq<Entry>, root: nat, clens: seq<bitlen>, h: nat)
    requires |clens| <= MaxSymbols(CODES) && Ready(t, root, CODES, clens) && forall s :: 0 <= s < |clens| ==> clens[s] <= root
    ensures Lo(h, root) < |t| && EntryTells(CODES, clens, h, t[Lo(h, root)]) && t[Lo(h, root)].bits <= root
  {
    hide Huff;
    var e := TableTells(t, root, CODES, clens, h);
    assert 1 <= root;
  }

  method CodesEntry(r: Reader, table: seq<Entry>, root: nat, ghost clens: seq<bitlen>) returns (ok: bool, here: Entry)
    requires r.Valid() && |clens| <= MaxSymbols(CODES) && Ready(table, root, CODES, clens) && root <= 9
    requires forall s :: 0 <= s < |clens| ==> clens[s] <= root
    modifies r`next, r`hold, r`bits
    ensures r.Valid() && r.Rest() == old(r.Rest())
    ensures ok ==> here.bits <= r.bits && here.bits <= root && EntryTells(CODES, clens, r.hold, here)
    ensures !ok ==> r.next == |r.input| && LookUp(clens, r.Rest()) == More
  {
    hide Ready, EntryTells, LookUp, Lo, Hi, Pow2;
    ok := true;
    CodesTell(table, root, clens, r.hold);
    here := table[r.Peek(root)];
    while here.bits > r.bits
      invariant r.Valid() && r.Rest() == old(r.Rest()) && ok && here.bits <= root
      invariant EntryTells(CODES, clens, r.hold, here)
      decreases |r.input| - r.next
    {
      ok := r.PullByte();
      if !ok {
        StuckAtRoot(r, table, root, CODES, clens, here);
        return;
      }
      CodesTell(table, root, clens, r.hold);
      here := table[r.Peek(root)];
    }
  }

  datatype Outcome = Done | Starved | Invalid

  // Where the loop stands.
  ghost function At(r: Reader, lens: seq<bitlen>, have: nat, bad: bool): LenConf
    requires r.Valid() && have <= |lens|
    reads r
  {
    LenConf(bad, lens[..have], r.Rest())
  }

  lemma AnswerVal(clens: seq<bitlen>, look: Look, e: Entry)
    requires |clens| <= MaxSymbols(CODES) && Answers(CODES, clens, look, e)
    ensures look.Found? ==> e.val == look.sym && e.bits == clens[look.sym] && look.sym < |clens|
    ensures look.Wrong? ==> e.val == 0 && e.bits == 1
    ensures look.Found? || look.Wrong?
  {}

  // One turn: a length, or a repeat of one.
  method ReadRun(r: Reader, table: seq<Entry>, root: nat, lens: array<bitlen>, have: nat, total: nat, ghost clens: seq<bitlen>)
    returns (have': nat, out: Outcome)
    requires r.Valid() && |clens| <= MaxSymbols(CODES) && Ready(table, root, CODES, clens) && root <= 9
    requires forall s :: 0 <= s < |clens| ==> clens[s] <= root
    requires have < total <= lens.Length
    modifies r`next, r`hold, r`bits, lens
    ensures r.Valid() && have' <= total
    ensures out == Done ==> have < have' && LenStep(clens, total, old(At(r, lens[..], have, false))) == Some(At(r, lens[..], have', false))
    ensures out == Invalid ==> LenStep(clens, total, old(At(r, lens[..], have, false))) == Some(At(r, lens[..], have', true))
    ensures out == Starved ==> have' == have && At(r, lens[..], have, false) == old(At(r, lens[..], have, false))
    ensures out == Starved ==> r.next == |r.input| && LenStep(clens, total, At(r, lens[..], have, false)).None?
  {
    hide Ready, EntryTells, LookUp, Answers, Lo, Hi, Pow2, Val, RestOf, Usable;
    ghost var rest, had := r.Rest(), lens[..have];
    ReadyUsable(table, root, CODES, clens);
    have' := have;
    var ok, here := CodesEntry(r, table, root, clens);
    if !ok { return have, Starved; }
    EnoughBits(CODES, clens, r.hold, r.bits, r.input[r.next..], here);
    r.RestIs();
    AnswerVal(clens, LookUp(clens, rest), here);
    if here.val < 16 {
      r.DropBits(here.bits);
      lens[have] := here.val;
      have' := have + 1;
      assert lens[..have'] == had + [here.val];
      return have', Done;
    }
    var x := RepeatWidth(here.val);
    ok := r.NeedBits(here.bits + x);
    if !ok {
      r.AllTaken();
      return have, Starved;
    }
    r.BitsInRest();
    r.DropBits(here.bits);
    if here.val == 16 && have == 0 { return have, Invalid; }
    var len := if here.val == 16 then lens[have - 1] else 0;
    var extra := r.TakeBits(x);
    SliceBits(rest, here.bits, x);
    var copy := RepeatBase(here.val) + extra;
    if have + copy > total { return have, Invalid; }
    CopyLength(lens, have, len, copy);
    have' := have + copy;
    out := Done;
  }

  lemma SliceBits(s: seq<bool>, a: nat, b: nat)
    requires a + b <= |s|
    ensures s[a..][..b] == s[a..a + b] && s[a..][b..] == s[a + b..]
  {}

  method CopyLength(lens: array<bitlen>, have: nat, len: bitlen, copy: nat)
    requires have + copy <= lens.Length
    modifies lens
    ensures lens[..have + copy] == old(lens[..have]) + Repeat(len, copy)
  {
    var n := 0;
    while n < copy
      invariant 0 <= n <= copy && lens[..have + n] == old(lens[..have]) + Repeat(len, n)
    {
      lens[have + n] := len;
      n := n + 1;
    }
  }

  // The state as a whole: it can stop for input and be entered again.
  method CodeLensState(r: Reader, table: seq<Entry>, root: nat, lens: array<bitlen>, have: nat, total: nat, ghost clens: seq<bitlen>)
    returns (have': nat, out: Outcome)
    requires r.Valid() && |clens| <= MaxSymbols(CODES) && Ready(table, root, CODES, clens) && root <= 9
    requires forall s :: 0 <= s < |clens| ==> clens[s] <= root
    requires have <= total <= lens.Length
    modifies r`next, r`hold, r`bits, lens
    ensures r.Valid() && have' <= total
    ensures LenRuns(clens, total, old(At(r, lens[..], have, false)), At(r, lens[..], have', out == Invalid))
    ensures out == Done ==> have' == total
    ensures out == Starved ==> have' < total && r.next == |r.input| && LenStep(clens, total, At(r, lens[..], have', false)).None?
  {
    hide Ready, LenStep, LenRuns, RestOf, Pow2;
    ghost var c := At(r, lens[..], have, false);
    LenRunsZero(clens, total, c);
    have', out := have, Done;
    while have' < total
      invariant r.Valid() && have' <= total && out == Done
      invariant LenRuns(clens, total, c, At(r, lens[..], have', false))
      decreases total - have'
    {
      ghost var d := At(r, lens[..], have', false);
      have', out := ReadRun(r, table, root, lens, have', total, clens);
      if out == Starved { return; }
      LenRunsThen(clens, total, c, d, At(r, lens[..], have', out == Invalid));
      if out == Invalid { return; }
    }
  }
}
