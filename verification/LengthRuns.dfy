// Run-length coding of code lengths (section 3.2.7 of RFC 1951): what the runs stand for,
// and the runs that scan_tree and send_tree make of a list of lengths
// (deps/zlib/trees.c:710-792).

module LengthRuns {
  import opened Bits
  import opened Canonical

  // A length; the previous length again, n times; n zeros.
  datatype Run = Plain(len: bitlen) | Again(n: nat) | Zeros(n: nat)

  // The symbol of the code length code.
  function SymbolOf(r: Run): (s: nat)
    ensures s < 19
  {
    match r
    case Plain(l) => l
    case Again(_) => 16
    case Zeros(n) => if n <= 10 then 17 else 18
  }

  // Repeat counts the format has room for.
  predicate Legal(r: Run) {
    match r
    case Plain(_) => true
    case Again(n) => 3 <= n <= 6
    case Zeros(n) => 3 <= n <= 138
  }

  function Repeat(l: bitlen, n: nat): (s: seq<bitlen>)
    ensures |s| == n
  {
    seq(n, _ => l)
  }

  // A run after the lengths so far; repeating needs something to repeat.
  predicate Follows(lens: seq<bitlen>, r: Run) {
    r.Again? ==> |lens| > 0
  }

  function ExpandRun(lens: seq<bitlen>, r: Run): seq<bitlen>
    requires Follows(lens, r)
  {
    match r
    case Plain(l) => lens + [l]
    case Again(n) => lens + Repeat(lens[|lens| - 1], n)
    case Zeros(n) => lens + Repeat(0, n)
  }

  predicate AllFollow(lens: seq<bitlen>, rs: seq<Run>)
    decreases |rs|
  {
    rs == [] || (Follows(lens, rs[0]) && Legal(rs[0]) && AllFollow(ExpandRun(lens, rs[0]), rs[1..]))
  }

  function ExpandRuns(lens: seq<bitlen>, rs: seq<Run>): seq<bitlen>
    requires AllFollow(lens, rs)
    decreases |rs|
  {
    if rs == [] then lens else ExpandRuns(ExpandRun(lens, rs[0]), rs[1..])
  }

  lemma {:induction false} RunsConcat(lens: seq<bitlen>, a: seq<Run>, b: seq<Run>)
    requires AllFollow(lens, a) && AllFollow(ExpandRuns(lens, a), b)
    ensures AllFollow(lens, a + b) && ExpandRuns(lens, a + b) == ExpandRuns(ExpandRuns(lens, a), b)
    decreases |a|
  {
    if a == [] {
      assert a + b == b;
    } else {
      assert (a + b)[1..] == a[1..] + b;
      RunsConcat(ExpandRun(lens, a[0]), a[1..], b);
    }
  }

  // ------------------------------------------------------------ the encoder's choice

  // The counts that close a run: set when the length before it was `prev`.
  function MaxCount(prev: int, cur: nat): nat {
    if cur == 0 then 138 else if cur == prev then 6 else 7
  }

  function MinCount(prev: int, cur: nat): nat {
    if cur == 0 || cur == prev then 3 else 4
  }

  function Plains(l: bitlen, n: nat): (rs: seq<Run>)
    ensures |rs| == n
  {
    seq(n, _ => Plain(l))
  }

  // What is sent for `count` lengths cur in a row, after a length prev.
  function Emit(prev: int, cur: bitlen, count: nat): seq<Run> {
    if count < MinCount(prev, cur) then Plains(cur, count)
    else if cur != 0 then (if cur != prev then [Plain(cur), Again(count - 1)] else [Again(count)])
    else [Zeros(count)]
  }

  // All runs from position n on, `count` lengths equal to lens[n] before it not yet sent.
  function RunsFrom(lens: seq<bitlen>, n: nat, prev: int, count: nat): seq<Run>
    requires n <= |lens|
    decreases |lens| - n
  {
    if n == |lens| then []
    else if count + 1 < MaxCount(prev, lens[n]) && n + 1 < |lens| && lens[n] == lens[n + 1] then
      RunsFrom(lens, n + 1, prev, count + 1)
    else
      Emit(prev, lens[n], count + 1) + RunsFrom(lens, n + 1, lens[n], 0)
  }

  function RunsOf(lens: seq<bitlen>): seq<Run> {
    RunsFrom(lens, 0, -1, 0)
  }

  // ------------------------------------------------------------ they stand for the lengths

  lemma {:induction false} PlainsExpand(lens: seq<bitlen>, l: bitlen, n: nat)
    ensures AllFollow(lens, Plains(l, n)) && ExpandRuns(lens, Plains(l, n)) == lens + Repeat(l, n)
    decreases n
  {
    if n == 0 {
      assert lens + Repeat(l, 0) == lens;
    } else {
      assert Plains(l, n)[1..] == Plains(l, n - 1);
      PlainsExpand(lens + [l], l, n - 1);
      assert (lens + [l]) + Repeat(l, n - 1) == lens + Repeat(l, n);
    }
  }

  lemma OneRun(lens: seq<bitlen>, r: Run)
    requires Follows(lens, r) && Legal(r)
    ensures AllFollow(lens, [r]) && ExpandRuns(lens, [r]) == ExpandRun(lens, r)
  {
    assert [r][1..] == [];
  }

  lemma TwoRuns(lens: seq<bitlen>, a: Run, b: Run)
    requires Follows(lens, a) && Legal(a) && Follows(ExpandRun(lens, a), b) && Legal(b)
    ensures AllFollow(lens, [a, b]) && ExpandRuns(lens, [a, b]) == ExpandRun(ExpandRun(lens, a), b)
  {
    assert [a, b][1..] == [b];
    OneRun(ExpandRun(lens, a), b);
  }

  lemma RepeatFirst(lens: seq<bitlen>, l: bitlen, n: nat)
    requires n > 0
    ensures (lens + [l]) + Repeat(l, n - 1) == lens + Repeat(l, n)
  {}

  // prev, unless it is -1, is the last of the lengths sent.
  predicate LastWas(lens: seq<bitlen>, prev: int) {
    prev == -1 || (|lens| > 0 && lens[|lens| - 1] == prev)
  }

  lemma EmitExpands(lens: seq<bitlen>, prev: int, cur: bitlen, count: nat)
    requires 1 <= count <= MaxCount(prev, cur) && LastWas(lens, prev)
    ensures AllFollow(lens, Emit(prev, cur, count)) && ExpandRuns(lens, Emit(prev, cur, count)) == lens + Repeat(cur, count)
  {
    if count < MinCount(prev, cur) {
      PlainsExpand(lens, cur, count);
    } else if cur != 0 && cur != prev {
      TwoRuns(lens, Plain(cur), Again(count - 1));
      RepeatFirst(lens, cur, count);
    } else {
      OneRun(lens, if cur != 0 then Again(count) else Zeros(count));
    }
  }

  // Everything up to n but the last `count`, all equal to lens[n], has been sent.
  predicate Sent(lens: seq<bitlen>, n: nat, prev: int, count: nat, sent: seq<bitlen>, pre: seq<bitlen>) {
    && count <= n <= |lens| && sent == pre + lens[..n - count] && LastWas(sent, prev)
    && (n < |lens| ==> count < MaxCount(prev, lens[n]) && forall i | n - count <= i < n :: lens[i] == lens[n])
    && (n == |lens| ==> count == 0)
  }

  lemma RepeatIs(lens: seq<bitlen>, n: nat, count: nat)
    requires count <= n < |lens| && forall i | n - count <= i < n :: lens[i] == lens[n]
    ensures lens[..n + 1] == lens[..n - count] + Repeat(lens[n], count + 1)
  {}

  lemma {:induction false} RunsFromExpand(lens: seq<bitlen>, n: nat, prev: int, count: nat, sent: seq<bitlen>, pre: seq<bitlen>)
    requires Sent(lens, n, prev, count, sent, pre)
    ensures AllFollow(sent, RunsFrom(lens, n, prev, count))
    ensures ExpandRuns(sent, RunsFrom(lens, n, prev, count)) == pre + lens
    decreases |lens| - n
  {
    hide Emit, LastWas;
    if n == |lens| {
      assert lens[..n] == lens;
    } else if count + 1 < MaxCount(prev, lens[n]) && n + 1 < |lens| && lens[n] == lens[n + 1] {
      RunsFromExpand(lens, n + 1, prev, count + 1, sent, pre);
    } else {
      var next := sent + Repeat(lens[n], count + 1);
      EmitExpands(sent, prev, lens[n], count + 1);
      RepeatIs(lens, n, count);
      Assoc(pre, lens[..n - count], Repeat(lens[n], count + 1));
      NextLast(sent, lens[n], count + 1);
      RunsFromExpand(lens, n + 1, lens[n], 0, next, pre);
      RunsConcat(sent, Emit(prev, lens[n], count + 1), RunsFrom(lens, n + 1, lens[n], 0));
    }
  }

  lemma NextLast(sent: seq<bitlen>, l: bitlen, n: nat)
    requires n > 0
    ensures LastWas(sent + Repeat(l, n), l)
  {}

  // The runs sent for lens, after any lengths, stand for lens; every repeat is legal.
  lemma RunsExpand(pre: seq<bitlen>, lens: seq<bitlen>)
    ensures AllFollow(pre, RunsOf(lens)) && ExpandRuns(pre, RunsOf(lens)) == pre + lens
  {
    assert pre + lens[..0] == pre;
    RunsFromExpand(lens, 0, -1, 0, pre, pre);
  }
}
