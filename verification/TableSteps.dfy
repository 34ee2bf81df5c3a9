// The moves of inflate_table's main loop (deps/zlib/inftrees.c:208-283): counting
// symbols down, incrementing a bit-reversed code, sizing the next sub-table.

module TableSteps {
  import opened Powers
  import opened Bits
  import opened Canonical
  import opened SymbolOrder
  import opened TableLayout

  // ------------------------------------------------------------ counts left

  // The rank of the first symbol of length l.
  function FirstRank(lens: seq<bitlen>, l: nat): nat {
    Rank(lens, |lens|, l, 0)
  }

  // How many symbols of length l are at or after rank k.
  function Left(lens: seq<bitlen>, k: nat, l: nat): nat {
    var lo, hi := FirstRank(lens, l), FirstRank(lens, l + 1);
    if hi <= k || hi <= lo then 0 else if k <= lo then hi - lo else hi - k
  }

  lemma LevelOf(lens: seq<bitlen>, order: seq<nat>, k: nat, l: nat)
    requires Sorted(lens, order) && k < |order| && 1 <= l
    ensures lens[order[k]] == l <==> FirstRank(lens, l) <= k < FirstRank(lens, l + 1)
  {
    var s := order[k];
    var m := lens[s];
    RankStep(lens, |lens|, m, s);
    if m < l {
      RankMono(lens, |lens|, m, s + 1, l, 0);
    } else if m > l {
      RankMono(lens, |lens|, l + 1, 0, m, s);
    } else {
      RankMono(lens, |lens|, l, 0, m, s);
      RankMono(lens, |lens|, m, s + 1, l + 1, 0);
    }
  }

  lemma LeftAtStart(lens: seq<bitlen>, l: nat)
    requires 1 <= l
    ensures Left(lens, 0, l) == Count(lens, |lens|, l)
  {
    RankLevel(lens, |lens|, l);
  }

  lemma LeftStep(lens: seq<bitlen>, order: seq<nat>, k: nat, l: nat)
    requires Sorted(lens, order) && k < |order| && 1 <= l
    ensures Left(lens, k, l) == Left(lens, k + 1, l) + (if lens[order[k]] == l then 1 else 0)
  {
    LevelOf(lens, order, k, l);
  }

  // After the symbol at rank k, what its level still holds decides what follows.
  lemma NextLevel(lens: seq<bitlen>, order: seq<nat>, k: nat, max: nat)
    requires Sorted(lens, order) && k < |order|
    requires 1 <= max <= 15 && forall s :: 0 <= s < |lens| ==> lens[s] <= max
    ensures Left(lens, k + 1, lens[order[k]]) > 0 ==> k + 1 < |order| && lens[order[k + 1]] == lens[order[k]]
    ensures Left(lens, k + 1, lens[order[k]]) == 0 && lens[order[k]] == max ==> k + 1 == |order|
    ensures Left(lens, k + 1, lens[order[k]]) == 0 && k + 1 < |order| ==> lens[order[k]] < lens[order[k + 1]]
  {
    var l: nat := lens[order[k]];
    LevelOf(lens, order, k, l);
    RankMono(lens, |lens|, l + 1, 0, 16, 0);
    if k + 1 < |order| {
      LevelOf(lens, order, k + 1, l);
      SortedNext(lens, order, k);
    }
    if l == max { RankAllBelow(lens, |lens|, max); }
  }

  lemma {:induction false} RankAllBelow(lens: seq<bitlen>, n: nat, max: nat)
    requires n <= |lens| && forall s :: 0 <= s < |lens| ==> lens[s] <= max
    ensures max <= 15 ==> Rank(lens, n, max + 1, 0) == Rank(lens, n, 16, 0)
  {
    if n > 0 { RankAllBelow(lens, n - 1, max); }
  }

  lemma MoreToCome(lens: seq<bitlen>, order: seq<nat>, k: nat, max: nat)
    requires Sorted(lens, order) && k < |order| && 1 <= max
    requires lens[order[k]] < max && exists s :: 0 <= s < |lens| && lens[s] == max
    ensures k + 1 < |order|
  {
    var s :| 0 <= s < |lens| && lens[s] == max;
    var j := SortedCovers(lens, order, s);
    if j <= k {
      var t := order[k];
      if j < k { OrderMono(lens, order, j, k); }
    }
  }

  // Later in the order means no shorter and no earlier in the code space.
  lemma OrderMono(lens: seq<bitlen>, order: seq<nat>, j: nat, k: nat)
    requires Sorted(lens, order) && j <= k < |order|
    ensures lens[order[j]] <= lens[order[k]]
    ensures j < k ==> Start(lens, order[j]) + Width(lens[order[j]]) <= Start(lens, order[k])
    decreases k
  {
    if j < k {
      OrderMono(lens, order, j, k - 1);
      SortedNext(lens, order, k - 1);
    }
  }

  // ------------------------------------------------------------ the next code

  // The source's backwards increment of a len-bit code.
  function Inc(h: nat, len: nat): nat {
    if len == 0 then 0
    else if Hi(h, len - 1) % 2 == 1 then Inc(h, len - 1)
    else Lo(h, len - 1) + Pow2(len - 1)
  }

  lemma {:induction false} IncFits(h: nat, len: nat)
    ensures Inc(h, len) < Pow2(len)
  {
    if len > 0 { IncFits(h, len - 1); }
  }

  lemma {:induction false} IncIsRev(h: nat, len: nat)
    ensures Rev(Inc(h, len), len) == Lo(Rev(h, len) + 1, len)
  {
    if len > 0 {
      RevTop(h, len);
      if Hi(h, len - 1) % 2 == 1 {
        IncIsRev(h, len - 1);
        IncCarries(h, len);
      } else {
        IncStops(h, len);
      }
    }
  }

  lemma IncCarries(h: nat, len: nat)
    requires len > 0 && Hi(h, len - 1) % 2 == 1
    requires Rev(Inc(h, len - 1), len - 1) == Lo(Rev(h, len - 1) + 1, len - 1)
    requires Rev(h, len) == 2 * Rev(h, len - 1) + 1
    ensures Rev(Inc(h, len), len) == Lo(Rev(h, len) + 1, len)
  {
    hide Rev, Lo, Pow2;
    var i := Inc(h, len - 1);
    RevTop(i, len);
    IncFits(h, len - 1);
    LoSmall(i, len - 1);
    LoDouble(Rev(h, len - 1) + 1, len);
  }

  lemma IncStops(h: nat, len: nat)
    requires len > 0 && Hi(h, len - 1) % 2 == 0
    requires Rev(h, len) == 2 * Rev(h, len - 1)
    ensures Rev(Inc(h, len), len) == Lo(Rev(h, len) + 1, len)
  {
    RevTopSet(Lo(h, len - 1), len - 1);
    RevLow(h, len - 1);
    LoSmall(2 * Rev(h, len - 1) + 1, len);
  }

  lemma RevTopSet(r: nat, n: nat)
    requires r < Pow2(n)
    ensures Rev(r + Pow2(n), n + 1) == 2 * Rev(r, n) + 1
  {
    TopBit(r, n);
    RevTop(r + Pow2(n), n + 1);
    RevLow(r + Pow2(n), n);
  }

  lemma TopBit(r: nat, n: nat)
    requires r < Pow2(n)
    ensures Lo(r + Pow2(n), n) == r && Hi(r + Pow2(n), n) == 1
  {
    LoOfJoin(1, r, n);
  }

  lemma IncOfRev(c: nat, len: nat)
    requires c < Pow2(len)
    ensures Inc(Rev(c, len), len) == Rev(c + 1, len)
  {
    var h := Rev(c, len);
    IncIsRev(h, len);
    RevRev(c, len);
    LoSmall(c, len);
    IncFits(h, len);
    RevRev(Inc(h, len), len);
    LoSmall(Inc(h, len), len);
    RevLow(c + 1, len);
  }

  method AdvanceCode(huff: nat, len: nat, ghost c: nat) returns (r: nat)
    requires 1 <= len <= 15 && c < Pow2(len) && huff == Rev(c, len)
    ensures r == Rev(c + 1, len)
  {
    hide Rev, Lo, Hi;
    IncOfRev(c, len);
    var incr := Pow2(len - 1);
    ghost var i := len;
    while incr != 0 && huff / incr % 2 == 1
      invariant 0 <= i <= len && incr == (if i == 0 then 0 else Pow2(i - 1))
      invariant Inc(huff, i) == Rev(c + 1, len)
      decreases i
    {
      LoHiIs(huff, i - 1);
      incr := incr / 2;
      i := i - 1;
    }
    if incr != 0 {
      LoHiIs(huff, i - 1);
      r := huff % incr + incr;
    } else {
      r := 0;
    }
  }

  lemma AfterCode(lens: seq<bitlen>, s: nat)
    requires Coded(lens, s) && Kraft(lens) <= Pow2(15)
    ensures Rev(Start(lens, s) + Width(lens[s]), 15) == Rev(Code(lens, s) + 1, lens[s])
  {
    hide Rev, Start, Code, Kraft, Pow2;
    var l, c := lens[s], Code(lens, s);
    CodeFits(lens, s);
    MulAdd(c, 1, Pow2(15 - l));
    RevShift(Start(lens, s) + Width(l), c + 1, l, 15);
  }

  // Advancing past s reaches the packed code of the symbol that starts where s ends.
  lemma AdvanceReaches(lens: seq<bitlen>, s: nat, t: nat)
    requires Coded(lens, s) && Coded(lens, t) && Kraft(lens) <= Pow2(15)
    requires Start(lens, t) == Start(lens, s) + Width(lens[s])
    ensures Rev(Code(lens, s) + 1, lens[s]) == Huff(lens, t)
  {
    AfterCode(lens, s);
    HuffStart(lens, t);
  }

  // Past the last symbol the code is zero exactly when the space is used up.
  lemma AdvanceEnds(lens: seq<bitlen>, s: nat)
    requires Coded(lens, s) && Start(lens, s) + Width(lens[s]) == Kraft(lens) <= Pow2(15)
    ensures Rev(Code(lens, s) + 1, lens[s]) == 0 <==> Kraft(lens) == Pow2(15)
  {
    AfterCode(lens, s);
    RevIsZero(Kraft(lens), 15);
  }

  lemma RevIsZero(v: nat, n: nat)
    requires 0 < v <= Pow2(n)
    ensures Rev(v, n) == 0 <==> v == Pow2(n)
  {
    RevRev(v, n);
    RevOfZero(n);
    RevLow(v, n);
    if v < Pow2(n) { LoSmall(v, n); } else { TopBit(0, n); }
  }

  lemma {:induction false} RevOfZero(n: nat)
    ensures Rev(0, n) == 0
  {
    if n > 0 { RevOfZero(n - 1); }
  }

  // ------------------------------------------------------------ root prefixes

  // The first root bits of the strings at x: which root slot they use.
  function Prefix(root: nat, x: nat): nat
    requires root <= 15
  {
    Hi(x, 15 - root)
  }

  lemma PrefixOfSlot(lens: seq<bitlen>, root: nat, s: nat)
    requires Coded(lens, s) && Kraft(lens) <= Pow2(15) && root <= 15
    ensures Prefix(root, Start(lens, s)) == Rev(LinkSlot(root, lens, s), root)
  {
    HuffStart(lens, s);
    RevPrefix(Huff(lens, s), root, 15);
    RevLow(Huff(lens, s), root);
  }

  lemma SameSlotSamePrefix(lens: seq<bitlen>, root: nat, s: nat, t: nat)
    requires Coded(lens, s) && Coded(lens, t) && Kraft(lens) <= Pow2(15) && root <= 15
    ensures LinkSlot(root, lens, s) == LinkSlot(root, lens, t) <==>
            Prefix(root, Start(lens, s)) == Prefix(root, Start(lens, t))
  {
    PrefixOfSlot(lens, root, s);
    PrefixOfSlot(lens, root, t);
    RevRev(LinkSlot(root, lens, s), root);
    RevRev(LinkSlot(root, lens, t), root);
    LoSmall(LinkSlot(root, lens, s), root);
    LoSmall(LinkSlot(root, lens, t), root);
  }

  lemma {:induction false} HiMono(a: nat, b: nat, n: nat)
    requires a <= b
    ensures Hi(a, n) <= Hi(b, n)
  {
    if n > 0 { HiMono(a / 2, b / 2, n - 1); }
  }

  // No word from s on that shares its root slot is longer than limit.
  ghost predicate SubBound(lens: seq<bitlen>, root: nat, s: nat, limit: nat)
    requires s < |lens|
  {
    forall u: nat {:trigger LinkSlot(root, lens, u)} |
      Coded(lens, u) && Start(lens, s) <= Start(lens, u) && LinkSlot(root, lens, u) == LinkSlot(root, lens, s) ::
      lens[u] <= limit
  }

  lemma BoundFromFull(lens: seq<bitlen>, root: nat, s: nat, limit: nat)
    requires Coded(lens, s) && Kraft(lens) <= Pow2(15) && root <= 15
    requires Below(lens, |lens|, limit + 1, 0) >= Start(lens, s) + Pow2(15 - root)
    ensures SubBound(lens, root, s, limit)
  {
    hide Kraft, LinkSlot, Pow2;
    forall u: nat {:trigger LinkSlot(root, lens, u)} |
      Coded(lens, u) && Start(lens, s) <= Start(lens, u) && LinkSlot(root, lens, u) == LinkSlot(root, lens, s)
      ensures lens[u] <= limit
    {
      if lens[u] > limit { OtherSlot(lens, root, s, u, limit); }
    }
  }

  // A word past the limit lies past the slot of s.
  lemma OtherSlot(lens: seq<bitlen>, root: nat, s: nat, u: nat, limit: nat)
    requires Coded(lens, s) && Coded(lens, u) && Kraft(lens) <= Pow2(15) && root <= 15 && lens[u] > limit
    requires Below(lens, |lens|, limit + 1, 0) >= Start(lens, s) + Pow2(15 - root)
    ensures LinkSlot(root, lens, u) != LinkSlot(root, lens, s)
  {
    hide Kraft, LinkSlot, Below, Pow2;
    BelowMono(lens, |lens|, limit + 1, 0, lens[u], u);
    PrefixApart(Start(lens, s), Start(lens, u), 15 - root);
    if LinkSlot(root, lens, u) == LinkSlot(root, lens, s) { SameSlotSamePrefix(lens, root, s, u); }
  }

  lemma PrefixApart(a: nat, b: nat, n: nat)
    requires a + Pow2(n) <= b
    ensures Hi(a, n) < Hi(b, n)
  {
    LoHi(a, n);
    LoHi(b, n);
    if Hi(b, n) <= Hi(a, n) { MulMono(Hi(b, n), Hi(a, n), Pow2(n)); }
  }

  // ------------------------------------------------------------ sizing a sub-table

  lemma {:induction false} BelowInLevel(lens: seq<bitlen>, n: nat, l: bitlen, k: nat)
    requires n <= |lens| && k <= |lens| && 0 < l
    ensures Below(lens, n, l, k) == Below(lens, n, l, 0) + Count(lens, if k < n then k else n, l) * Width(l)
  {
    if n > 0 {
      BelowInLevel(lens, n - 1, l, k);
      if n - 1 < k && lens[n - 1] == l { MulAdd(Count(lens, n - 1, l), 1, Width(l)); }
    }
  }

  // The code space of the symbols of length l from rank k on.
  lemma LeftWidth(lens: seq<bitlen>, order: seq<nat>, k: nat, l: bitlen)
    requires Sorted(lens, order) && k < |order| && lens[order[k]] <= l
    ensures Below(lens, |lens|, l + 1, 0) ==
            (if lens[order[k]] == l then Start(lens, order[k]) else Below(lens, |lens|, l, 0)) + Left(lens, k, l) * Width(l)
  {
    var s := order[k];
    BelowInLevel(lens, |lens|, l, |lens|);
    BelowLevel(lens, |lens|, l, |lens|);
    RankLevel(lens, |lens|, l);
    LevelOf(lens, order, k, l);
    if lens[s] == l {
      BelowInLevel(lens, |lens|, l, s);
      RankInLevel(lens, |lens|, l, s);
      MulAdd(Left(lens, k, l), Count(lens, s, l), Width(l));
    } else {
      RankStep(lens, |lens|, lens[s], s);
      RankMono(lens, |lens|, lens[s], s + 1, l, 0);
    }
  }

  // Where the symbols of length at least l, from s on, begin.
  function LevelStart(lens: seq<bitlen>, s: nat, l: nat): nat
    requires s < |lens|
  {
    if lens[s] == l then Start(lens, s) else Below(lens, |lens|, l, 0)
  }

  lemma LevelStartLater(lens: seq<bitlen>, s: nat, l: nat)
    requires Coded(lens, s) && lens[s] < l
    ensures LevelStart(lens, s, l) == Below(lens, |lens|, l, 0) >= Start(lens, s)
  {
    BelowGap(lens, |lens|, s, l, 0);
  }

  // The words shorter than l do not fill the slot of s, or l is the length of s itself.
  ghost predicate Needed(lens: seq<bitlen>, root: nat, s: nat, l: nat)
    requires s < |lens| && root <= 15
  {
    l == lens[s] || Below(lens, |lens|, l, 0) < Start(lens, s) + Pow2(15 - root)
  }

  // The room for n words of length l.
  function RoomFor(n: int, l: nat): int
    requires l <= 15
  {
    n * Pow2(15 - l)
  }

  // What is left of the slot of s for words of length l and more, in words of length l.
  ghost predicate Sized(lens: seq<bitlen>, root: nat, s: nat, l: nat, left: int)
    requires s < |lens| && root <= 15
  {
    l <= 15 && RoomFor(left, l) == Start(lens, s) + Pow2(15 - root) - LevelStart(lens, s, l)
  }

  lemma SizeStarts(lens: seq<bitlen>, root: nat, s: nat, max: nat)
    requires s < |lens| && root < lens[s] && forall u :: 0 <= u < |lens| ==> lens[u] <= max
    ensures Sized(lens, root, s, lens[s], Pow2(lens[s] - root)) && Needed(lens, root, s, lens[s])
    ensures SubBound(lens, root, s, max)
  {
    SpaceAtLevel(lens[s] - root, root);
  }

  // One level taken off.
  lemma SizeOneLevel(lens: seq<bitlen>, order: seq<nat>, k: nat, root: nat, l: bitlen, left: int)
    requires Sorted(lens, order) && k < |order| && Kraft(lens) <= Pow2(15)
    requires root < lens[order[k]] <= l && Sized(lens, root, order[k], l, left)
    ensures left - Left(lens, k, l) <= 0 ==> SubBound(lens, root, order[k], l)
    ensures left - Left(lens, k, l) > 0 && l < 15 ==>
      Needed(lens, root, order[k], l + 1) && Sized(lens, root, order[k], l + 1, 2 * (left - Left(lens, k, l)))
  {
    hide Below, Start, Kraft, Left, LinkSlot, SubBound, RankOf, RoomFor, LevelStart, Pow2;
    var s, n := order[k], Left(lens, k, l);
    LeftRoom(lens, order, k, l);
    RoomTaken(left, n, l);
    RoomSign(left - n, l);
    if left - n <= 0 {
      BoundFromFull(lens, root, s, l);
    } else if l < 15 {
      LevelStartLater(lens, s, l + 1);
      RoomDoubles(left - n, l);
    }
  }

  // The words of length l from s on take the room up to those that are longer.
  lemma LeftRoom(lens: seq<bitlen>, order: seq<nat>, k: nat, l: bitlen)
    requires Sorted(lens, order) && k < |order| && lens[order[k]] <= l
    ensures LevelStart(lens, order[k], l) + RoomFor(Left(lens, k, l), l) == Below(lens, |lens|, l + 1, 0)
  {
    hide Below, Start, Left, RankOf, Kraft;
    LeftWidth(lens, order, k, l);
  }

  lemma RoomTaken(left: int, n: int, l: nat)
    requires l <= 15
    ensures RoomFor(left - n, l) == RoomFor(left, l) - RoomFor(n, l)
  {
    MulAdd(left - n, n, Pow2(15 - l));
  }

  lemma RoomSign(n: int, l: nat)
    requires l <= 15
    ensures RoomFor(n, l) > 0 <==> n > 0
  {
    if n > 0 { IsPositive(n, Pow2(15 - l)); } else { NotPositive(n, Pow2(15 - l)); }
  }

  lemma RoomDoubles(n: int, l: nat)
    requires l < 15
    ensures RoomFor(2 * n, l + 1) == RoomFor(n, l)
  {
    MulAssoc(n, 2, Pow2(14 - l));
  }

  method SizeSub(ghost lens: seq<bitlen>, ghost order: seq<nat>, ghost k: nat,
                 count: array<nat>, len: nat, root: nat, max: nat) returns (curr: nat)
    requires Sorted(lens, order) && k < |order| && Kraft(lens) <= Pow2(15)
    requires 1 <= root < len == lens[order[k]] <= max <= 15
    requires forall s :: 0 <= s < |lens| ==> lens[s] <= max
    requires count.Length == 16 && forall l :: len <= l <= 15 ==> count[l] == Left(lens, k, l)
    ensures len <= curr + root <= max
    ensures SubBound(lens, root, order[k], curr + root)
    ensures Needed(lens, root, order[k], curr + root)
  {
    hide SubBound, Needed, Sized, Below, Start, Kraft, Left, RankOf, SymbolCount, Pow2;
    ghost var s := order[k];
    curr := len - root;
    var left: int := Pow2(curr);
    SizeStarts(lens, root, s, max);
    while curr + root < max
      invariant len <= curr + root <= max
      invariant Sized(lens, root, s, curr + root, left)
      invariant Needed(lens, root, s, curr + root)
      decreases max - curr
    {
      SizeOneLevel(lens, order, k, root, curr + root, left);
      left := left - count[curr + root];
      if left <= 0 { return; }
      curr := curr + 1;
      left := left * 2;
    }
  }

  lemma IsPositive(a: int, d: nat)
    requires a > 0 && d > 0
    ensures a * d > 0
  {}

  lemma NotPositive(a: int, d: nat)
    requires a <= 0
    ensures a * d <= 0
  {}

  lemma SpaceAtLevel(curr: nat, root: nat)
    requires curr + root <= 15
    ensures Pow2(curr) * Pow2(15 - curr - root) == Pow2(15 - root)
  {
    Pow2Add(curr, 15 - curr - root);
  }
}
