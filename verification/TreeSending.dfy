// scan_tree and send_tree (deps/zlib/trees.c:710-792): counting and sending the runs of a
// tree's lengths. Both walk the lengths the same way.

module TreeSending {
  import opened Powers
  import opened Bits
  import opened Canonical
  import opened TreeCodes
  import opened BitOutput
  import opened LengthRuns

  const GUARD := 0xffff

  // ------------------------------------------------------------ counting

  function Times(rs: seq<Run>, s: nat): nat {
    if rs == [] then 0 else (if SymbolOf(rs[0]) == s then 1 else 0) + Times(rs[1..], s)
  }

  lemma {:induction false} TimesConcat(a: seq<Run>, b: seq<Run>, s: nat)
    ensures Times(a + b, s) == Times(a, s) + Times(b, s)
  {
    if a == [] {
      assert a + b == b;
    } else {
      assert (a + b)[1..] == a[1..] + b;
      TimesConcat(a[1..], b, s);
    }
  }

  lemma {:induction false} TimesPlains(l: bitlen, n: nat, s: nat)
    ensures Times(Plains(l, n), s) == if s == l then n else 0
    decreases n
  {
    if n > 0 {
      assert Plains(l, n)[1..] == Plains(l, n - 1);
      TimesPlains(l, n - 1, s);
    }
  }

  lemma TimesOne(r: Run, s: nat)
    ensures Times([r], s) == if SymbolOf(r) == s then 1 else 0
  {
    assert [r][1..] == [];
  }

  // The lengths of a tree up to maxCode, with the guard after them.
  ghost predicate Guarded(tree: seq<CtData>, lens: seq<bitlen>) {
    |lens| < |tree| && tree[|lens|].dl == GUARD && forall i | 0 <= i < |lens| :: tree[i].dl == lens[i]
  }

  // Frequencies of the code length symbols: those at the start and those of the runs so far.
  ghost predicate Tallied(bl: seq<CtData>, bl0: seq<CtData>, rs: seq<Run>) {
    |bl| == |bl0| && |bl| >= 19 && forall s | 0 <= s < 19 :: bl[s].fc == bl0[s].fc + Times(rs, s)
  }

  lemma TalliedMore(bl: seq<CtData>, bl0: seq<CtData>, rs: seq<Run>, more: seq<Run>, bl': seq<CtData>)
    requires Tallied(bl, bl0, rs) && |bl'| == |bl| && forall s | 0 <= s < 19 :: bl'[s].fc == bl[s].fc + Times(more, s)
    ensures Tallied(bl', bl0, rs + more)
  {
    forall s | 0 <= s < 19 ensures bl'[s].fc == bl0[s].fc + Times(rs + more, s) {
      TimesConcat(rs, more, s);
    }
  }

  method Bump(bl: array<CtData>, s: nat, k: nat)
    requires s < bl.Length
    modifies bl
    ensures bl[..] == old(bl[..])[s := old(bl[s]).(fc := old(bl[s].fc) + k)]
  {
    bl[s] := bl[s].(fc := bl[s].fc + k);
  }

  // Counts the symbols of one emission.
  method CountRun(bl: array<CtData>, prev: int, cur: bitlen, count: nat, minCount: nat, ghost bl0: seq<CtData>, ghost rs: seq<Run>)
    requires minCount == MinCount(prev, cur) && Tallied(bl[..], bl0, rs)
    modifies bl
    ensures Tallied(bl[..], bl0, rs + Emit(prev, cur, count))
  {
    ghost var b := bl[..];
    if count < minCount {
      forall s | 0 <= s < 19 { TimesPlains(cur, count, s); }
      Bump(bl, cur, count);
    } else if cur != 0 {
      forall s | 0 <= s < 19 ensures Times(Emit(prev, cur, count), s) == (if cur != prev && s == cur then 1 else 0) + if s == 16 then 1 else 0 {
        TimesRepeat(prev, cur, count, s);
      }
      if cur != prev { Bump(bl, cur, 1); }
      Bump(bl, 16, 1);
    } else {
      forall s | 0 <= s < 19 { TimesOne(Zeros(count), s); }
      if count <= 10 { Bump(bl, 17, 1); } else { Bump(bl, 18, 1); }
    }
    TalliedMore(b, bl0, rs, Emit(prev, cur, count), bl[..]);
  }

  lemma TimesRepeat(prev: int, cur: bitlen, count: nat, s: nat)
    requires cur != 0 && count >= MinCount(prev, cur)
    ensures Times(Emit(prev, cur, count), s) == (if cur != prev && s == cur then 1 else 0) + if s == 16 then 1 else 0
  {
    if cur != prev {
      assert [Plain(cur), Again(count - 1)][1..] == [Again(count - 1)];
      TimesOne(Again(count - 1), s);
    } else {
      TimesOne(Again(count), s);
    }
  }

  // scan_tree counts every symbol as often as send_tree will send it.
  method ScanTree(tree: array<CtData>, maxCode: nat, bl: array<CtData>, ghost lens: seq<bitlen>)
    requires tree != bl && maxCode + 1 == |lens| < tree.Length && 19 <= bl.Length
    requires forall i | 0 <= i < |lens| :: tree[i].dl == lens[i]
    modifies tree, bl
    ensures Guarded(tree[..], lens) && forall i | 0 <= i < tree.Length && i != |lens| :: tree[i] == old(tree[i])
    ensures Tallied(bl[..], old(bl[..]), RunsOf(lens))
  {
    hide Emit, Tallied;
    ghost var bl0 := bl[..];
    ghost var rs: seq<Run> := [];
    var prevlen: int := -1;
    var nextlen, count, maxCount, minCount := tree[0].dl, 0, 7, 4;
    if nextlen == 0 { maxCount, minCount := 138, 3; }
    tree[maxCode + 1] := tree[maxCode + 1].(dl := GUARD);
    StartTally(bl0);
    var n := 0;
    while n <= maxCode
      invariant 0 <= n <= maxCode + 1 && Guarded(tree[..], lens) && nextlen == tree[n].dl
      invariant forall i | 0 <= i < tree.Length && i != |lens| :: tree[i] == old(tree[i])
      invariant n < |lens| ==> maxCount == MaxCount(prevlen, lens[n]) && minCount == MinCount(prevlen, lens[n])
      invariant Tallied(bl[..], bl0, rs) && rs + RunsFrom(lens, n, prevlen, count) == RunsOf(lens)
    {
      var curlen := nextlen;
      nextlen := tree[n + 1].dl;
      count := count + 1;
      if count < maxCount && curlen == nextlen {
        n := n + 1;
        continue;
      }
      CountRun(bl, prevlen, curlen, count, minCount, bl0, rs);
      Assoc(rs, Emit(prevlen, curlen, count), RunsFrom(lens, n + 1, curlen, 0));
      rs := rs + Emit(prevlen, curlen, count);
      count, prevlen := 0, curlen;
      if nextlen == 0 {
        maxCount, minCount := 138, 3;
      } else if curlen == nextlen {
        maxCount, minCount := 6, 3;
      } else {
        maxCount, minCount := 7, 4;
      }
      n := n + 1;
    }
    assert rs + [] == rs;
  }

  lemma StartTally(bl: seq<CtData>)
    requires |bl| >= 19
    ensures Tallied(bl, bl, [])
  {}

  // ------------------------------------------------------------ sending

  function ExtraBits(r: Run): seq<bool>
    requires Legal(r)
  {
    match r
    case Plain(_) => []
    case Again(n) => BitsOf(n - 3, 2)
    case Zeros(n) => if n <= 10 then BitsOf(n - 3, 3) else BitsOf(n - 11, 7)
  }

  function RunBits(clens: seq<bitlen>, r: Run): seq<bool>
    requires Legal(r) && Coded(clens, SymbolOf(r))
  {
    CodeBits(clens, SymbolOf(r)) + ExtraBits(r)
  }

  ghost predicate Sendable(clens: seq<bitlen>, rs: seq<Run>) {
    forall i | 0 <= i < |rs| :: Legal(rs[i]) && Coded(clens, SymbolOf(rs[i]))
  }

  ghost function RunsBits(clens: seq<bitlen>, rs: seq<Run>): seq<bool>
    requires Sendable(clens, rs)
  {
    if rs == [] then []
    else RunBits(clens, rs[0]) + RunsBits(clens, rs[1..])
  }

  lemma {:induction false} BitsConcat(clens: seq<bitlen>, a: seq<Run>, b: seq<Run>)
    requires Sendable(clens, a) && Sendable(clens, b)
    ensures Sendable(clens, a + b) && RunsBits(clens, a + b) == RunsBits(clens, a) + RunsBits(clens, b)
  {
    if a == [] {
      assert a + b == b;
      assert [] + RunsBits(clens, b) == RunsBits(clens, b);
    } else {
      assert (a + b)[1..] == a[1..] + b;
      BitsConcat(clens, a[1..], b);
      Assoc(RunBits(clens, a[0]), RunsBits(clens, a[1..]), RunsBits(clens, b));
    }
  }

  lemma SendableParts(clens: seq<bitlen>, a: seq<Run>, b: seq<Run>)
    requires Sendable(clens, a + b)
    ensures Sendable(clens, a) && Sendable(clens, b)
  {
    forall i | 0 <= i < |a| ensures Legal(a[i]) && Coded(clens, SymbolOf(a[i])) { assert a[i] == (a + b)[i]; }
    forall i | 0 <= i < |b| ensures Legal(b[i]) && Coded(clens, SymbolOf(b[i])) { assert b[i] == (a + b)[|a| + i]; }
  }

  // The code length tree, as gen_codes left it.
  ghost predicate Codes(bl: seq<CtData>, clens: seq<bitlen>) {
    |clens| <= |bl| && forall s: nat | Coded(clens, s) :: bl[s] == CtData(Huff(clens, s), clens[s])
  }

  method SendRun(w: BitBuffer, bl: array<CtData>, r: Run, ghost clens: seq<bitlen>)
    requires w.Valid() && Codes(bl[..], clens) && Legal(r) && Coded(clens, SymbolOf(r))
    modifies w
    ensures w.Valid() && w.Written() == old(w.Written()) + RunBits(clens, r)
  {
    hide BitBuffer.Valid, BitBuffer.Written, Huff;
    Assoc(w.Written(), CodeBits(clens, SymbolOf(r)), ExtraBits(r));
    Widths();
    var e := bl[SymbolOf(r)];
    assert e == bl[..][SymbolOf(r)];
    w.SendBits(e.fc, e.dl);
    match r {
      case Plain(_) => assert w.Written() + [] == w.Written();
      case Again(n) => w.SendBits(n - 3, 2);
      case Zeros(n) =>
        if n <= 10 { w.SendBits(n - 3, 3); } else { w.SendBits(n - 11, 7); }
    }
  }

  lemma Widths()
    ensures Pow2(2) == 4 && Pow2(3) == 8 && Pow2(7) == 128
  {
    assert Pow2(4) == 16;
  }

  lemma BitsPlains(clens: seq<bitlen>, l: bitlen, n: nat)
    requires Coded(clens, l)
    ensures Sendable(clens, Plains(l, n)) && Sendable(clens, [Plain(l)])
    ensures RunsBits(clens, Plains(l, n + 1)) == RunsBits(clens, Plains(l, n)) + RunBits(clens, Plain(l))
  {
    assert Plains(l, n + 1) == Plains(l, n) + [Plain(l)];
    BitsConcat(clens, Plains(l, n), [Plain(l)]);
    BitsOne(clens, Plain(l));
  }

  lemma BitsOne(clens: seq<bitlen>, r: Run)
    requires Legal(r) && Coded(clens, SymbolOf(r))
    ensures Sendable(clens, [r]) && RunsBits(clens, [r]) == RunBits(clens, r)
  {
    assert [r][1..] == [];
    assert RunBits(clens, r) + [] == RunBits(clens, r);
  }

  lemma BitsTwo(clens: seq<bitlen>, a: Run, b: Run)
    requires Legal(a) && Coded(clens, SymbolOf(a)) && Legal(b) && Coded(clens, SymbolOf(b))
    ensures Sendable(clens, [a, b]) && RunsBits(clens, [a, b]) == RunBits(clens, a) + RunBits(clens, b)
  {
    assert [a, b][1..] == [b];
    BitsOne(clens, b);
  }

  // The same length, count times.
  method SendPlains(w: BitBuffer, bl: array<CtData>, cur: bitlen, count0: nat, ghost clens: seq<bitlen>)
    requires w.Valid() && Codes(bl[..], clens) && 1 <= count0 && Coded(clens, cur)
    modifies w
    ensures w.Valid() && Sendable(clens, Plains(cur, count0))
    ensures w.Written() == old(w.Written()) + RunsBits(clens, Plains(cur, count0))
  {
    hide BitBuffer.Valid, BitBuffer.Written, RunBits, RunsBits, Codes;
    ghost var sent := w.Written();
    var count := count0;
    NoBits(clens, cur);
    assert sent + [] == sent;
    ghost var k := 0;
    while count != 0
      invariant 0 <= count <= count0 && k == count0 - count && w.Valid()
      invariant Sendable(clens, Plains(cur, k)) && w.Written() == sent + RunsBits(clens, Plains(cur, k))
    {
      BitsPlains(clens, cur, k);
      Assoc(sent, RunsBits(clens, Plains(cur, k)), RunBits(clens, Plain(cur)));
      SendRun(w, bl, Plain(cur), clens);
      BitsPlains(clens, cur, k + 1);
      count := count - 1;
      k := k + 1;
    }
  }

  lemma NoBits(clens: seq<bitlen>, l: bitlen)
    ensures Sendable(clens, Plains(l, 0)) && RunsBits(clens, Plains(l, 0)) == []
  {}

  // One emission of send_tree.
  method SendRuns(w: BitBuffer, bl: array<CtData>, prev: int, cur: bitlen, count0: nat, minCount: nat, ghost clens: seq<bitlen>)
    requires w.Valid() && Codes(bl[..], clens) && 1 <= count0 && minCount == MinCount(prev, cur)
    requires Sendable(clens, Emit(prev, cur, count0))
    modifies w
    ensures w.Valid() && w.Written() == old(w.Written()) + RunsBits(clens, Emit(prev, cur, count0))
  {
    hide BitBuffer.Valid, BitBuffer.Written, RunBits, RunsBits, Codes;
    var count := count0;
    ghost var rs, sent := Emit(prev, cur, count0), w.Written();
    assert Legal(rs[0]) && Coded(clens, SymbolOf(rs[0]));
    if count < minCount {
      SendPlains(w, bl, cur, count, clens);
    } else if cur != 0 {
      if cur != prev {
        assert Legal(rs[1]) && Coded(clens, SymbolOf(rs[1]));
        BitsTwo(clens, rs[0], rs[1]);
        Assoc(sent, RunBits(clens, rs[0]), RunBits(clens, rs[1]));
        SendRun(w, bl, Plain(cur), clens);
        count := count - 1;
      } else {
        BitsOne(clens, rs[0]);
      }
      SendRun(w, bl, Again(count), clens);
    } else {
      BitsOne(clens, rs[0]);
      SendRun(w, bl, Zeros(count), clens);
    }
  }

  method SendTree(w: BitBuffer, tree: array<CtData>, maxCode: nat, bl: array<CtData>, ghost lens: seq<bitlen>, ghost clens: seq<bitlen>)
    requires w.Valid() && maxCode + 1 == |lens| && Guarded(tree[..], lens) && Codes(bl[..], clens)
    requires Sendable(clens, RunsOf(lens))
    modifies w
    ensures w.Valid() && w.Written() == old(w.Written()) + RunsBits(clens, RunsOf(lens))
  {
    hide BitBuffer.Valid, BitBuffer.Written, RunsBits, Codes, Emit, Sendable;
    ghost var rs: seq<Run>, sent := [], w.Written();
    var prevlen: int := -1;
    var nextlen, count, maxCount, minCount := tree[0].dl, 0, 7, 4;
    if nextlen == 0 { maxCount, minCount := 138, 3; }
    NoRuns(clens);
    assert sent + [] == sent;
    var n := 0;
    while n <= maxCode
      invariant 0 <= n <= maxCode + 1 && nextlen == tree[n].dl && w.Valid()
      invariant n < |lens| ==> maxCount == MaxCount(prevlen, lens[n]) && minCount == MinCount(prevlen, lens[n])
      invariant rs + RunsFrom(lens, n, prevlen, count) == RunsOf(lens) && Sendable(clens, rs)
      invariant w.Written() == sent + RunsBits(clens, rs)
    {
      var curlen := nextlen;
      nextlen := tree[n + 1].dl;
      count := count + 1;
      if count < maxCount && curlen == nextlen {
        n := n + 1;
        continue;
      }
      ghost var now, later := Emit(prevlen, curlen, count), RunsFrom(lens, n + 1, curlen, 0);
      Assoc(rs, now, later);
      SendableParts(clens, rs + now, later);
      SendableParts(clens, rs, now);
      BitsConcat(clens, rs, now);
      Assoc(sent, RunsBits(clens, rs), RunsBits(clens, now));
      SendRuns(w, bl, prevlen, curlen, count, minCount, clens);
      rs := rs + now;
      count, prevlen := 0, curlen;
      if nextlen == 0 {
        maxCount, minCount := 138, 3;
      } else if curlen == nextlen {
        maxCount, minCount := 6, 3;
      } else {
        maxCount, minCount := 7, 4;
      }
      n := n + 1;
    }
    assert rs + [] == rs;
  }

  lemma NoRuns(clens: seq<bitlen>)
    ensures Sendable(clens, []) && RunsBits(clens, []) == []
  {}
}
