// The Adler-32 checksum (deps/zlib/adler32.c:61-155): two sums reduced once per 5552 bytes
// instead of once per byte, and the checksum of a whole from those of its halves.

module Adler32 {
  import opened Powers
  import opened Bits

  const BASE := 65521
  const NMAX := 5552

  // A register of 32 bits, without wrapping: every value given to one is shown to fit.
  type u32 = x: int | 0 <= x < 0x1_0000_0000

  // ------------------------------------------------------------ section 8.2 of RFC 1950

  // The sum of the bytes, from a.
  function Sum1(a: nat, s: seq<byte>): nat {
    if s == [] then a else Sum1(a, s[..|s| - 1]) + s[|s| - 1]
  }

  // The sum of the values Sum1 takes, from b.
  function Sum2(a: nat, b: nat, s: seq<byte>): nat {
    if s == [] then b else Sum2(a, b, s[..|s| - 1]) + Sum1(a, s)
  }

  datatype Sums = Sums(a: nat, b: nat)

  // The two sums, reduced after every byte.
  function Fold(start: Sums, s: seq<byte>): Sums {
    if s == [] then Sums(start.a % BASE, start.b % BASE)
    else
      var r := Fold(start, s[..|s| - 1]);
      var a := (r.a + s[|s| - 1]) % BASE;
      Sums(a, (r.b + a) % BASE)
  }

  // Both sums in one value: adler | (sum2 << 16).
  function Pack(r: Sums): nat { r.b * 0x1_0000 + r.a }

  function Checksum(start: Sums, s: seq<byte>): nat { Pack(Fold(start, s)) }

  lemma ModAdd(x: nat, y: nat)
    ensures (x % BASE + y) % BASE == (x + y) % BASE
    ensures (x % BASE + y % BASE) % BASE == (x + y) % BASE
  {
    var q, r := x / BASE, x % BASE;
    assert x == q * BASE + r;
    assert (r + y) % BASE == (q * BASE + (r + y)) % BASE;
  }

  // Reducing after every byte is reducing at the end.
  lemma {:induction false} FoldIs(start: Sums, s: seq<byte>)
    ensures Fold(start, s) == Sums(Sum1(start.a, s) % BASE, Sum2(start.a, start.b, s) % BASE)
  {
    if s != [] {
      var t := s[..|s| - 1];
      FoldIs(start, t);
      ModAdd(Sum1(start.a, t), s[|s| - 1]);
      ModAdd(Sum2(start.a, start.b, t), Sum1(start.a, s));
    }
  }

  lemma {:induction false} Sum1Appends(a: nat, s: seq<byte>, t: seq<byte>)
    ensures Sum1(a, s + t) == Sum1(Sum1(a, s), t)
  {
    if t == [] {
      assert s + t == s;
    } else {
      Sum1Appends(a, s, t[..|t| - 1]);
      assert (s + t)[..|s + t| - 1] == s + t[..|t| - 1];
    }
  }

  lemma {:induction false} Sum2Appends(a: nat, b: nat, s: seq<byte>, t: seq<byte>)
    ensures Sum2(a, b, s + t) == Sum2(Sum1(a, s), Sum2(a, b, s), t)
  {
    if t == [] {
      assert s + t == s;
    } else {
      Sum2Appends(a, b, s, t[..|t| - 1]);
      Sum1Appends(a, s, t);
      assert (s + t)[..|s + t| - 1] == s + t[..|t| - 1];
    }
  }

  // The starting sums enter linearly.
  lemma {:induction false} SumsFrom(a: nat, b: nat, s: seq<byte>)
    ensures Sum1(a, s) == a + Sum1(0, s)
    ensures Sum2(a, b, s) == b + |s| * a + Sum2(0, 0, s)
  {
    if s != [] {
      SumsFrom(a, b, s[..|s| - 1]);
    }
  }

  // The bytes added up, and added up as often as they are in a sum of sums.
  function Total(s: seq<byte>): nat {
    if s == [] then 0 else s[0] + Total(s[1..])
  }

  function Weighed(s: seq<byte>): nat {
    if s == [] then 0 else |s| * s[0] + Weighed(s[1..])
  }

  lemma {:induction false} SumsAre(a: nat, b: nat, s: seq<byte>)
    ensures Sum1(a, s) == a + Total(s) && Sum2(a, b, s) == b + |s| * a + Weighed(s)
    decreases |s|
  {
    if s != [] {
      var t := s[1..];
      assert s == [s[0]] + t && [s[0]][..0] == [];
      Sum1Appends(a, [s[0]], t);
      Sum2Appends(a, b, [s[0]], t);
      assert Sum1(a, [s[0]]) == a + s[0] && Sum2(a, b, [s[0]]) == b + (a + s[0]);
      SumsAre(a + s[0], b + (a + s[0]), t);
      MulAdd(1, |t|, a + s[0]);
      MulParts(|s|, a, s[0]);
    }
  }

  lemma MulParts(n: nat, a: nat, c: nat)
    ensures n * (a + c) == n * a + n * c
  {}

  // The checksum of RFC 1950 in numbers.
  lemma ChecksumIs(s: seq<byte>)
    ensures Checksum(Sums(1, 0), s) == ((|s| + Weighed(s)) % 65521) * 0x1_0000 + (1 + Total(s)) % 65521
  {
    FoldIs(Sums(1, 0), s);
    SumsAre(1, 0, s);
  }

  // Calls in a row give the checksum of the whole.
  lemma ChecksumAppends(start: Sums, s: seq<byte>, t: seq<byte>)
    ensures Fold(Fold(start, s), t) == Fold(start, s + t)
  {
    hide Fold, Sum1, Sum2;
    var a, b := Sum1(start.a, s), Sum2(start.a, start.b, s);
    FoldIs(start, s);
    FoldIs(start, s + t);
    FoldIs(Fold(start, s), t);
    Sum1Appends(start.a, s, t);
    Sum2Appends(start.a, start.b, s, t);
    SumsFrom(a, b, t);
    SumsFrom(a % BASE, b % BASE, t);
    ModAdd(a, Sum1(0, t));
    LinearMod(|t|, a, b, Sum2(0, 0, t));
  }

  lemma LinearMod(n: nat, a: nat, b: nat, v: nat)
    ensures (b % BASE + n * (a % BASE) + v) % BASE == (b + n * a + v) % BASE
  {
    TimesMod(n, a);
    var x, y := n * (a % BASE), n * a;
    ModAdd(b, x + v);
    ModAdd(x, b + v);
    ModAdd(y, b + v);
  }

  lemma TimesMod(n: nat, a: nat)
    ensures (n * (a % BASE)) % BASE == (n * a) % BASE
  {
    var q := a / BASE;
    assert n * a == n * (a % BASE) + (n * q) * BASE by {
      MulAssoc(n, q, BASE);
    }
    ModTimes(n * (a % BASE), n * q);
  }

  lemma {:induction false} ModTimes(x: nat, k: nat)
    ensures (x + k * BASE) % BASE == x % BASE
  {
    if k > 0 { ModTimes(x, k - 1); }
  }

  // ------------------------------------------------------------ no overflow

  // The most the two sums can be n bytes after both were at most 0xffff.
  function Most1(n: nat): nat { 0xffff + 255 * n }

  function Most2(n: nat): nat {
    if n == 0 then 0xffff else Most2(n - 1) + Most1(n)
  }

  lemma {:induction false} Most2Is(n: nat)
    ensures 2 * Most2(n) == 2 * 0xffff * (n + 1) + 255 * (n * (n + 1))
  {
    if n > 0 {
      Most2Is(n - 1);
      assert (n - 1) * n + 2 * n == n * (n + 1);
    }
  }

  // The two sums fit for a whole block of NMAX bytes.
  lemma NoOverflow(n: nat)
    requires n <= NMAX
    ensures Most1(n) < 0x1_0000_0000 && Most2(n) < 0x1_0000_0000
  {
    Most2Is(n);
    MulMono(n, NMAX, n + 1);
    assert n * (n + 1) <= NMAX * (n + 1) <= NMAX * (NMAX + 1);
  }

  // ------------------------------------------------------------ the loops

  // The sums are those of the first p bytes, n bytes after they were last reduced.
  ghost predicate Holds(adler: int, sum2: int, start: Sums, s: seq<byte>, p: nat, n: nat) {
    && p <= |s|
    && 0 <= adler <= Most1(n) && 0 <= sum2 <= Most2(n)
    && adler % BASE == Sum1(start.a, s[..p]) % BASE
    && sum2 % BASE == Sum2(start.a, start.b, s[..p]) % BASE
  }

  lemma HoldsNext(adler: int, sum2: int, start: Sums, s: seq<byte>, p: nat, n: nat)
    requires Holds(adler, sum2, start, s, p, n) && p < |s| && n < NMAX
    ensures Holds(adler + s[p], sum2 + (adler + s[p]), start, s, p + 1, n + 1)
    ensures adler + s[p] < 0x1_0000_0000 && sum2 + (adler + s[p]) < 0x1_0000_0000
  {
    hide Sum1, Sum2, Most1, Most2;
    var t := s[..p + 1];
    assert t[..p] == s[..p];
    SumNext(start.a, s, p);
    Sum2Next(start.a, start.b, s, p);
    MostNext(n);
    ModAdd(adler, s[p]);
    ModAdd(Sum1(start.a, s[..p]), s[p]);
    ModAdd(sum2, adler + s[p]);
    ModAdd(Sum2(start.a, start.b, s[..p]), Sum1(start.a, t));
    NoOverflow(n + 1);
  }

  lemma SumNext(a: nat, s: seq<byte>, p: nat)
    requires p < |s|
    ensures Sum1(a, s[..p + 1]) == Sum1(a, s[..p]) + s[p]
  {
    assert s[..p + 1][..p] == s[..p];
  }

  // MOD on both sums.
  lemma Sum2Next(a: nat, b: nat, s: seq<byte>, p: nat)
    requires p < |s|
    ensures Sum2(a, b, s[..p + 1]) == Sum2(a, b, s[..p]) + Sum1(a, s[..p + 1])
  {
    assert s[..p + 1][..p] == s[..p];
  }

  lemma MostNext(n: nat)
    ensures Most1(n + 1) == Most1(n) + 255 && Most2(n + 1) >= Most2(n) + Most1(n + 1)
  {}

  lemma HoldsReduced(adler: int, sum2: int, start: Sums, s: seq<byte>, p: nat, n: nat)
    requires Holds(adler, sum2, start, s, p, n)
    ensures Holds(adler % BASE, sum2 % BASE, start, s, p, 0)
  {
    hide Sum1, Sum2;
  }

  lemma HoldsStart(start: Sums, s: seq<byte>)
    requires start.a <= 0xffff && start.b <= 0xffff
    ensures Holds(start.a, start.b, start, s, 0, 0)
  {}

  // One byte after another, as DO1 does.
  method AddBytes(adler: u32, sum2: u32, ghost start: Sums, s: seq<byte>, p: nat, count: nat, ghost n: nat)
    returns (a: u32, b: u32)
    requires Holds(adler, sum2, start, s, p, n)
    requires p + count <= |s| && n + count <= NMAX
    ensures Holds(a, b, start, s, p + count, n + count)
  {
    hide Holds;
    a, b := adler, sum2;
    for i := 0 to count
      invariant Holds(a, b, start, s, p + i, n + i)
    {
      HoldsNext(a, b, start, s, p + i, n + i);
      a := a + s[p + i];
      b := b + a;
    }
  }

  lemma Finished(adler: int, sum2: int, start: Sums, s: seq<byte>)
    requires Holds(adler, sum2, start, s, |s|, 0) && adler < BASE && sum2 < BASE
    ensures sum2 * 0x1_0000 + adler == Checksum(start, s)
  {
    hide Sum1, Sum2, Fold, Most1, Most2;
    assert s[..|s|] == s;
    assert adler % BASE == adler && sum2 % BASE == sum2;
    FoldIs(start, s);
    assert Fold(start, s) == Sums(adler, sum2);
  }

  // Blocks of NMAX bytes, reduced once each, sixteen bytes at a time.
  method Blocks(adler: u32, sum2: u32, ghost start: Sums, s: seq<byte>) returns (a: u32, b: u32, p: nat)
    requires Holds(adler, sum2, start, s, 0, 0)
    ensures Holds(a, b, start, s, p, 0) && p <= |s| < p + NMAX
    ensures p > 0 ==> a < BASE && b < BASE
    ensures p == 0 ==> a == adler && b == sum2
  {
    hide Holds;
    a, b, p := adler, sum2, 0;
    while |s| - p >= NMAX
      invariant p <= |s| && Holds(a, b, start, s, p, 0)
      invariant p > 0 ==> a < BASE && b < BASE
      invariant p == 0 ==> a == adler && b == sum2
    {
      ghost var p0 := p;
      var n := NMAX / 16;
      while n != 0
        invariant 0 <= n <= NMAX / 16
        invariant p == p0 + (NMAX - 16 * n) && p + 16 * n <= |s|
        invariant Holds(a, b, start, s, p, NMAX - 16 * n)
      {
        a, b := AddBytes(a, b, start, s, p, 16, NMAX - 16 * n);
        p := p + 16;
        n := n - 1;
      }
      HoldsReduced(a, b, start, s, p, NMAX);
      a := a % BASE;
      b := b % BASE;
    }
  }

  // What is left, fewer than NMAX bytes.
  method Remaining(adler: u32, sum2: u32, ghost start: Sums, s: seq<byte>, from: nat) returns (a: u32, b: u32)
    requires Holds(adler, sum2, start, s, from, 0) && from < |s| < from + NMAX
    ensures Holds(a, b, start, s, |s|, 0) && a < BASE && b < BASE
  {
    hide Holds;
    a, b := adler, sum2;
    var p := from;
    while |s| - p >= 16
      invariant from <= p <= |s| && Holds(a, b, start, s, p, p - from)
    {
      a, b := AddBytes(a, b, start, s, p, 16, p - from);
      p := p + 16;
    }
    a, b := AddBytes(a, b, start, s, p, |s| - p, p - from);
    HoldsReduced(a, b, start, s, |s|, |s| - from);
    a := a % BASE;
    b := b % BASE;
  }

  // The bytes of a call, or no buffer at all.
  datatype Buffer = Null | Bytes(s: seq<byte>)

  // The sums a value of 32 bits splits into.
  function Split(adler: u32): Sums { Sums(adler % 0x1_0000, adler / 0x1_0000) }

  lemma Once(x: nat)
    ensures (if x >= BASE then x - BASE else x) == x % BASE <==> x < 2 * BASE
  {}

  lemma OneFold(start: Sums, x: byte)
    ensures Fold(start, [x]) == Sums((start.a + x) % BASE, (start.b + (start.a + x) % BASE) % BASE)
  {
    FoldIs(start, [x]);
    assert [x][..0] == [];
    assert Sum1(start.a, [x]) == start.a + x;
    assert Sum2(start.a, start.b, [x]) == start.b + (start.a + x);
    ModAdd(start.a + x, start.b);
  }

  // A byte at a time, a reduction is one subtraction: too few when both sums start high.
  predicate OneIsEnough(start: Sums, s: seq<byte>) {
    |s| == 1 ==> start.b + (start.a + s[0]) % BASE < 2 * BASE
  }

  // Such a start: the sum of 65535 and 65510 takes two subtractions.
  lemma OneTooFew()
    ensures !OneIsEnough(Split(0xffff_ffe6), [0])
  {
    assert (65510 + 0) % BASE == 65510;
  }

  method OneByte(adler: u32, s: seq<byte>) returns (r: u32)
    requires |s| == 1
    ensures r == Checksum(Split(adler), s) <==> OneIsEnough(Split(adler), s)
  {
    hide Fold;
    var start := Split(adler);
    OneFold(start, s[0]);
    assert s == [s[0]];
    var a, sum2 := start.a + s[0], start.b;
    Once(a);
    a := if a >= BASE then a - BASE else a;
    Once(sum2 + a);
    sum2 := sum2 + a;
    sum2 := if sum2 >= BASE then sum2 - BASE else sum2;
    r := sum2 * 0x1_0000 + a;
  }

  // Fewer than sixteen bytes: the first sum needs one subtraction at most.
  method Short(adler: u32, s: seq<byte>) returns (r: u32)
    requires |s| < 16
    ensures r == Checksum(Split(adler), s)
  {
    hide Holds, Fold;
    ghost var start := Split(adler);
    HoldsStart(start, s);
    var a, b := AddBytes(adler % 0x1_0000, adler / 0x1_0000, start, s, 0, |s|, 0);
    HoldsReduced(a, b, start, s, |s|, |s|);
    ShortBound(a, b, start, s);
    Once(a);
    a := if a >= BASE then a - BASE else a;
    b := b % BASE;
    Finished(a, b, start, s);
    r := b * 0x1_0000 + a;
  }

  lemma ShortBound(a: int, b: int, start: Sums, s: seq<byte>)
    requires Holds(a, b, start, s, |s|, |s|) && |s| < 16
    ensures 0 <= a < 2 * BASE
  {}

  // For every starting value, and every number of bytes but one, the checksum of RFC 1950.
  method Adler32Z(adler: u32, buf: Buffer) returns (r: u32)
    ensures buf.Null? ==> r == 1
    ensures buf.Bytes? ==> (r == Checksum(Split(adler), buf.s) <==> OneIsEnough(Split(adler), buf.s))
  {
    hide Holds, Fold, Checksum;
    if buf.Bytes? && |buf.s| == 1 {
      r := OneByte(adler, buf.s);
      return;
    }
    if buf.Null? { return 1; }
    var s := buf.s;
    if |s| < 16 {
      r := Short(adler, s);
      return;
    }
    ghost var start := Split(adler);
    HoldsStart(start, s);
    var a, b, p := Blocks(adler % 0x1_0000, adler / 0x1_0000, start, s);
    if p != |s| {
      a, b := Remaining(a, b, start, s, p);
    }
    Finished(a, b, start, s);
    r := b * 0x1_0000 + a;
  }

  // Sums that are reduced, as every checksum's are.
  predicate Reduced(start: Sums) { start.a < BASE && start.b < BASE }

  lemma ReducedEnough(start: Sums, s: seq<byte>)
    requires Reduced(start)
    ensures OneIsEnough(start, s)
  {}

  lemma SplitPack(r: Sums)
    requires Reduced(r)
    ensures 0 <= Pack(r) < 0x1_0000_0000 && Split(Pack(r)) == r
  {}

  // ------------------------------------------------------------ adler32_combine_

  // Both sums of the whole from those of its halves, the second begun from 1.
  lemma CombineIs(start: Sums, s: seq<byte>, t: seq<byte>)
    ensures var x, y, n := Fold(start, s), Fold(Sums(1, 0), t), |t| % BASE;
      Fold(start, s + t) == Joined(x, y, n)
  {
    hide Fold, Joined;
    ChecksumAppends(start, s, t);
    JoinAny(Fold(start, s), t);
  }

  // Any sums, reduced or not, carried on over a string.
  lemma JoinAny(x: Sums, t: seq<byte>)
    ensures Fold(x, t) == Joined(x, Fold(Sums(1, 0), t), |t| % BASE)
  {
    hide Fold, Sum1, Sum2;
    FoldIs(x, t);
    FoldIs(Sums(1, 0), t);
    SumsFrom(x.a, x.b, t);
    SumsFrom(1, 0, t);
    FirstSum(x.a, Sum1(0, t));
    SecondSum(|t|, x.a, x.b, Sum2(0, 0, t));
  }

  lemma FirstSum(a: nat, u: nat)
    ensures (a + (1 + u) % BASE + BASE - 1) % BASE == (a + u) % BASE
  {
    ModAdd(1 + u, a + BASE - 1);
    ModTimes(a + u, 1);
  }

  lemma SecondSum(len: nat, a: nat, b: nat, v: nat)
    ensures ((len % BASE * a) % BASE + b + (len + v) % BASE + BASE - len % BASE) % BASE == (b + len * a + v) % BASE
  {
    var n, q := len % BASE, len / BASE;
    assert len == q * BASE + n;
    TimesMod(a, len);
    assert a * n == n * a && a * len == len * a;
    var y := (len + v) % BASE;
    ModAdd(n * a, b + y + BASE - n);
    ModAdd(len * a, b + y + BASE - n);
    ModAdd(len + v, len * a + b + BASE - n);
    ModTimes(b + len * a + v, q + 1);
    assert len + v + len * a + b + BASE - n == b + len * a + v + (q + 1) * BASE by {
      MulAdd(q, 1, BASE);
    }
  }

  // Two subtractions reduce what is below three times the base, and leave a multiple otherwise.
  lemma Twice(x: nat)
    requires x < 4 * BASE
    ensures var y := if x >= BASE then x - BASE else x;
      (if y >= BASE then y - BASE else y) == x % BASE + (if x < 3 * BASE then 0 else BASE)
  {}

  // One of twice the base and one of the base reduce what is below four times it.
  lemma Quadruple(x: nat)
    requires x < 5 * BASE
    ensures var y := if x >= 2 * BASE then x - 2 * BASE else x;
      (if y >= BASE then y - BASE else y) == x % BASE + (if x < 4 * BASE then 0 else BASE)
  {}

  lemma RemTimes(rem: nat, a: nat)
    requires rem < BASE && a < 0x1_0000
    ensures 0 <= rem * a < 0x1_0000_0000
  {
    NotAbove(rem, a, 0xffff);
  }

  lemma NotAbove(a: nat, b: nat, m: nat)
    requires a <= m && b <= m
    ensures 0 <= a * b <= m * m
  {
    MulMono(a, m, b);
    MulMono(b, m, m);
  }

  lemma FoldReduced(start: Sums, s: seq<byte>)
    ensures Reduced(Fold(start, s))
  {}

  // What adler32_combine_ puts together.
  function Joined(x: Sums, y: Sums, n: nat): Sums
    requires n < BASE
  {
    Sums((x.a + y.a + BASE - 1) % BASE, ((n * x.a) % BASE + x.b + y.b + BASE - n) % BASE)
  }

  // Whether the subtractions of adler32_combine_ reduce both sums.
  predicate JoinFits(x: Sums, y: Sums, n: nat)
    requires n < BASE
  {
    x.a + y.a <= 2 * BASE && (n * x.a) % BASE + x.b + y.b < 3 * BASE + n
  }

  lemma ReducedFits(x: Sums, y: Sums, n: nat)
    requires Reduced(x) && Reduced(y) && n < BASE
    ensures JoinFits(x, y, n)
  {}

  lemma {:induction false} SumOfLast(a: nat, n: nat)
    ensures Sum1(a, seq(n, _ => 255)) == a + 255 * n
  {
    if n > 0 {
      var s: seq<byte> := seq(n, _ => 255);
      assert s[..n - 1] == seq(n - 1, _ => 255);
      SumOfLast(a, n - 1);
    }
  }

  // A value and a checksum for which they do not: 65535 carried on over a string that sums to 65519.
  lemma CombineTooFew() returns (t: seq<byte>)
    ensures !JoinFits(Split(0xffff), Fold(Sums(1, 0), t), |t| % BASE)
  {
    var u: seq<byte> := seq(256, _ => 255);
    t := u + [239];
    SumOfLast(1, 256);
    assert t[..256] == u;
    assert Sum1(1, t) == 65520;
    FoldIs(Sums(1, 0), t);
  }

  method CombineFirst(x: u32, y: u32) returns (sum1: u32)
    requires x < 0x1_0000 && y < 0x1_0000
    ensures sum1 == (x + y + BASE - 1) % BASE + (if x + y <= 2 * BASE then 0 else BASE)
  {
    sum1 := x + (y + BASE - 1);
    Twice(sum1);
    if sum1 >= BASE { sum1 := sum1 - BASE; }
    if sum1 >= BASE { sum1 := sum1 - BASE; }
  }

  method CombineSecond(x: Sums, y: Sums, rem: u32) returns (sum2: u32)
    requires x.a < 0x1_0000 && x.b < 0x1_0000 && y.b < 0x1_0000 && rem < BASE
    ensures sum2 == ((rem * x.a) % BASE + x.b + y.b + BASE - rem) % BASE
                    + (if (rem * x.a) % BASE + x.b + y.b < 3 * BASE + rem then 0 else BASE)
  {
    RemTimes(rem, x.a);
    sum2 := rem * x.a;
    sum2 := sum2 % BASE;
    sum2 := Subtracted(sum2 + (x.b + y.b + BASE - rem));
  }

  method Subtracted(x: u32) returns (y: u32)
    requires x < 5 * BASE
    ensures y == x % BASE + (if x < 4 * BASE then 0 else BASE)
  {
    Quadruple(x);
    y := x;
    if y >= 2 * BASE { y := y - 2 * BASE; }
    if y >= BASE { y := y - BASE; }
  }

  // sum1 | (sum2 << 16): a first sum of 17 bits sets the lowest bit of the second.
  function Or(sum1: nat, sum2: nat): nat
    requires sum1 < 0x2_0000
  {
    if sum1 < 0x1_0000 then sum2 * 0x1_0000 + sum1
    else (sum2 / 2 * 2 + 1) * 0x1_0000 + (sum1 - 0x1_0000)
  }

  // Nothing but the reduced sums gives the value they pack to.
  lemma OrIs(r: Sums, sum1: nat, sum2: nat)
    requires Reduced(r) && (sum1 == r.a || sum1 == r.a + BASE) && (sum2 == r.b || sum2 == r.b + BASE)
    ensures Or(sum1, sum2) == Pack(r) <==> sum1 == r.a && sum2 == r.b
  {
    if sum1 < 0x1_0000 {
      LowHalf(sum2, sum1);
    } else {
      LowHalf(sum2 / 2 * 2 + 1, sum1 - 0x1_0000);
    }
    LowHalf(r.b, r.a);
  }

  lemma LowHalf(b: nat, a: nat)
    requires a < 0x1_0000
    ensures (b * 0x1_0000 + a) % 0x1_0000 == a
  {}

  lemma JoinedOn(adler1: u32, adler2: u32, t: seq<byte>)
    requires adler2 == Checksum(Sums(1, 0), t)
    ensures Pack(Joined(Split(adler1), Split(adler2), |t| % BASE)) == Checksum(Split(adler1), t)
  {
    hide Fold, Split, Pack, Joined, Reduced;
    FoldReduced(Sums(1, 0), t);
    SplitPack(Fold(Sums(1, 0), t));
    JoinAny(Split(adler1), t);
  }

  lemma JoinedIs(adler1: u32, adler2: u32, start: Sums, s: seq<byte>, t: seq<byte>)
    requires adler1 == Checksum(start, s) && adler2 == Checksum(Sums(1, 0), t)
    ensures Pack(Joined(Split(adler1), Split(adler2), |t| % BASE)) == Checksum(start, s + t)
    ensures JoinFits(Split(adler1), Split(adler2), |t| % BASE)
  {
    hide Fold, Split, Pack, Joined, Reduced, JoinFits;
    FoldReduced(start, s);
    FoldReduced(Sums(1, 0), t);
    SplitPack(Fold(start, s));
    SplitPack(Fold(Sums(1, 0), t));
    CombineIs(start, s, t);
    ReducedFits(Split(adler1), Split(adler2), |t| % BASE);
  }

  method CombineSums(adler1: u32, adler2: u32, len2: nat) returns (r: nat)
    ensures r == Pack(Joined(Split(adler1), Split(adler2), len2 % BASE)) <==>
            JoinFits(Split(adler1), Split(adler2), len2 % BASE)
  {
    hide Pack, Or;
    var rem := len2 % BASE;
    var x, y := Split(adler1), Split(adler2);
    var sum1 := CombineFirst(x.a, y.a);
    var sum2 := CombineSecond(x, y, rem);
    OrIs(Joined(x, y, rem), sum1, sum2);
    r := Or(sum1, sum2);
  }

  // A second checksum joined to any value of 32 bits: the sums carried on over the second string,
  // if and only if the subtractions are enough. For two checksums they are.
  method Combine(adler1: u32, adler2: u32, len2: int) returns (r: nat)
    ensures len2 < 0 ==> r == 0xffff_ffff
    ensures forall t: seq<byte> :: |t| == len2 && adler2 == Checksum(Sums(1, 0), t) ==>
      (r == Checksum(Split(adler1), t) <==> JoinFits(Split(adler1), Split(adler2), len2 % BASE))
    ensures forall start: Sums, s: seq<byte>, t: seq<byte> ::
      |t| == len2 && adler1 == Checksum(start, s) && adler2 == Checksum(Sums(1, 0), t) ==> r == Checksum(start, s + t)
  {
    hide Checksum, Split, Pack, Joined, Reduced, JoinFits;
    if len2 < 0 { return 0xffff_ffff; }
    r := CombineSums(adler1, adler2, len2);
    forall t: seq<byte> | |t| == len2 && adler2 == Checksum(Sums(1, 0), t)
      ensures Pack(Joined(Split(adler1), Split(adler2), len2 % BASE)) == Checksum(Split(adler1), t)
    {
      JoinedOn(adler1, adler2, t);
    }
    forall start: Sums, s: seq<byte>, t: seq<byte> |
      |t| == len2 && adler1 == Checksum(start, s) && adler2 == Checksum(Sums(1, 0), t)
      ensures r == Checksum(start, s + t)
    {
      JoinedIs(adler1, adler2, start, s, t);
    }
  }
}
