// The table space that is enough (deps/zlib/inftrees.h:41-59): with root tables of 9 and 6 bits no
// code of 286 lengths needs more than 852 entries, and none of 30 distances more than 592. Counted
// level by level: a sub-table has as many entries as words, but for the room that its shorter words
// take up, and at each level the words of one slot only can waste any.

module TableBound {
  import opened Powers
  import opened Bits
  import opened Canonical
  import opened SymbolOrder
  import opened TableLayout
  import opened TableSteps
  import opened TableSpace
  import opened TreeCodes
  import opened InflateTable

  // ------------------------------------------------------------ the tree by levels

  // The nodes of level l that are neither words nor below one.
  function Inner(lens: seq<bitlen>, l: nat): int {
    if l == 0 then 1 else 2 * Inner(lens, l - 1) - Count(lens, |lens|, l)
  }

  function SumInner(lens: seq<bitlen>, a: nat, b: nat): int
    requires a <= b
  {
    if a == b then 0 else SumInner(lens, a, b - 1) + Inner(lens, b - 1)
  }

  // The words up to length l, of the first n symbols.
  function WordsTo(lens: seq<bitlen>, n: nat, l: nat): nat
    requires n <= |lens|
  {
    if l == 0 then 0 else WordsTo(lens, n, l - 1) + Count(lens, n, l)
  }

  lemma {:induction false} WordsNext(lens: seq<bitlen>, n: nat, l: nat)
    requires n < |lens|
    ensures WordsTo(lens, n + 1, l) == WordsTo(lens, n, l) + if 1 <= lens[n] <= l then 1 else 0
  {
    if l > 0 { WordsNext(lens, n, l - 1); }
  }

  lemma {:induction false} WordsAtMost(lens: seq<bitlen>, n: nat, l: nat)
    requires n <= |lens|
    ensures WordsTo(lens, n, l) <= n
  {
    if n > 0 {
      WordsAtMost(lens, n - 1, l);
      WordsNext(lens, n - 1, l);
    } else {
      NoWords(lens, l);
    }
  }

  lemma {:induction false} NoWords(lens: seq<bitlen>, l: nat)
    ensures WordsTo(lens, 0, l) == 0
  {
    if l > 0 { NoWords(lens, l - 1); }
  }

  // Every inner node has two children, and every node but the root is a child of one.
  lemma {:induction false} Balance(lens: seq<bitlen>, a: nat, b: nat)
    requires a <= b
    ensures WordsTo(lens, |lens|, b) - WordsTo(lens, |lens|, a) == SumInner(lens, a, b) + Inner(lens, a) - Inner(lens, b)
  {
    if a < b { Balance(lens, a, b - 1); }
  }

  lemma {:induction false} UnitsAll(lens: seq<bitlen>, n: nat, l: nat, k: nat)
    requires n <= |lens| && n <= k && l > 0
    ensures Units(lens, n, l, k) == Units(lens, n, l, 0) + Count(lens, n, l)
  {
    if n > 0 { UnitsAll(lens, n - 1, l, k); }
  }

  lemma {:induction false} InnerIs(lens: seq<bitlen>, l: nat)
    requires l > 0
    ensures Inner(lens, l) == Pow2(l) - (Units(lens, |lens|, l, 0) + Count(lens, |lens|, l))
  {
    UnitsLevel(lens, |lens|, l - 1);
    if l > 1 {
      InnerIs(lens, l - 1);
    } else {
      UnitsZero(lens, |lens|);
    }
  }

  // The room that words up to length l leave.
  lemma InnerRoom(lens: seq<bitlen>, l: nat)
    requires l <= 15
    ensures Below(lens, |lens|, l + 1, 0) == (Pow2(l) - Inner(lens, l)) * Pow2(15 - l)
  {
    hide Pow2, Inner;
    BelowLevel(lens, |lens|, l, |lens|);
    BelowUnits(lens, |lens|, l, |lens|);
    if l > 0 {
      UnitsAll(lens, |lens|, l, |lens|);
      InnerIs(lens, l);
    } else {
      NoRoot(lens, |lens|);
    }
  }

  lemma {:induction false} NoRoot(lens: seq<bitlen>, n: nat)
    requires n <= |lens|
    ensures Units(lens, n, 0, |lens|) == 0 && Pow2(0) == 1 == Inner(lens, 0)
  {
    if n > 0 { NoRoot(lens, n - 1); }
  }

  lemma InnerFits(lens: seq<bitlen>, l: nat)
    requires Kraft(lens) == Pow2(15) && l <= 15
    ensures 0 <= Inner(lens, l) && (l == 15 ==> Inner(lens, l) == 0)
  {
    hide Inner, Below, Pow2, Kraft;
    InnerRoom(lens, l);
    Pow2Add(l, 15 - l);
    KraftIs(lens);
    if l == 15 {
      Filled(Pow2(15), Inner(lens, 15));
    } else {
      BelowMono(lens, |lens|, l + 1, 0, 16, 0);
      NotPast(Pow2(l), Inner(lens, l), Pow2(15 - l));
    }
  }

  lemma KraftIs(lens: seq<bitlen>)
    ensures Kraft(lens) == Below(lens, |lens|, 16, 0) && Pow2(0) == 1
  {}

  lemma Filled(p: nat, i: int)
    requires (p - i) * 1 == p
    ensures i == 0
  {}

  lemma NotPast(p: nat, i: int, u: nat)
    requires u > 0 && (p - i) * u <= p * u
    ensures i >= 0
  {
    if i < 0 {
      MulMono(p + 1, p - i, u);
      MulAdd(p, 1, u);
    }
  }

  lemma {:induction false} SumInnerFits(lens: seq<bitlen>, a: nat, b: nat)
    requires Kraft(lens) == Pow2(15) && a <= b <= 16
    ensures 0 <= SumInner(lens, a, b) && (a < b ==> Inner(lens, a) <= SumInner(lens, a, b))
  {
    hide Inner, Kraft, Pow2;
    if a < b {
      SumInnerFits(lens, a, b - 1);
      InnerFits(lens, b - 1);
      InnerFits(lens, a);
    }
  }

  // ------------------------------------------------------------ slots by levels

  // Slots below n with a word longer than l.
  function Over(lens: seq<bitlen>, root: nat, l: nat, n: nat): nat {
    if n == 0 then 0 else Over(lens, root, l, n - 1) + if Longest(lens, |lens|, root, n - 1) > l then 1 else 0
  }

  // What a longest word of the given length makes of every level from root to m.
  function Levels(long: nat, root: nat, m: nat): nat
    requires root <= m
  {
    if m == root then 0 else Levels(long, root, m - 1) + if long > m - 1 then Pow2(m - 1 - root) else 0
  }

  lemma {:induction false} LevelsIs(long: nat, root: nat, m: nat)
    requires root <= m
    ensures Levels(long, root, m) == if long <= root then 0 else Pow2((if long < m then long else m) - root) - 1
  {
    if m > root { LevelsIs(long, root, m - 1); }
  }

  function OverLevels(lens: seq<bitlen>, root: nat, m: nat, n: nat): int
    requires root <= m
  {
    if m == root then 0 else OverLevels(lens, root, m - 1, n) + Over(lens, root, m - 1, n) * Pow2(m - 1 - root)
  }

  lemma {:induction false} OverLevelsNext(lens: seq<bitlen>, root: nat, m: nat, n: nat)
    requires root <= m
    ensures OverLevels(lens, root, m, n + 1) == OverLevels(lens, root, m, n) + Levels(Longest(lens, |lens|, root, n), root, m)
    ensures OverLevels(lens, root, m, 0) == 0
  {
    hide Longest;
    if m > root {
      OverLevelsNext(lens, root, m - 1, n);
      MulAdd(Over(lens, root, m - 1, n), 1, Pow2(m - 1 - root));
    }
  }

  lemma {:induction false} LongestFits(lens: seq<bitlen>, n: nat, root: nat, slot: nat)
    requires n <= |lens|
    ensures Longest(lens, n, root, slot) <= 15
  {
    if n > 0 { LongestFits(lens, n - 1, root, slot); }
  }

  lemma {:induction false} SumByLevels(lens: seq<bitlen>, root: nat, slots: set<nat>, n: nat)
    requires root <= 15
    ensures SlotSum(lens, root, slots, n) <= Over(lens, root, root, n) + OverLevels(lens, root, 15, n)
  {
    hide Longest, OverLevels, Levels;
    if n == 0 {
      OverLevelsNext(lens, root, 15, 0);
    } else {
      SumByLevels(lens, root, slots, n - 1);
      OverLevelsNext(lens, root, 15, n - 1);
      LevelsIs(Longest(lens, |lens|, root, n - 1), root, 15);
      LongestFits(lens, |lens|, root, n - 1);
    }
  }

  // ------------------------------------------------------------ how many slots reach below a level

  function Range(a: nat, b: nat): (s: set<nat>)
    requires a <= b
    ensures |s| == b - a && forall q: nat :: q in s <==> a <= q < b
  {
    if a == b then {} else Range(a, b - 1) + {b - 1}
  }

  function Reversed(s: set<nat>, root: nat): set<nat> { set n | n in s :: Rev(n, root) }

  lemma {:induction false} ReversedSize(s: set<nat>, root: nat)
    requires forall n | n in s :: n < Pow2(root)
    ensures |Reversed(s, root)| == |s|
    decreases |s|
  {
    hide Rev, Pow2;
    if s == {} {
      assert Reversed(s, root) == {};
    } else {
      var n :| n in s;
      var t := s - {n};
      ReversedSize(t, root);
      assert Reversed(s, root) == Reversed(t, root) + {Rev(n, root)};
      if Rev(n, root) in Reversed(t, root) {
        var m :| m in t && Rev(m, root) == Rev(n, root);
        RevRev(m, root);
        RevRev(n, root);
        LoSmall(m, root);
        LoSmall(n, root);
      }
    }
  }

  lemma SubsetSize(s: set<nat>, t: set<nat>)
    requires s <= t
    ensures |s| <= |t|
  {
    assert t == s + (t - s);
  }

  function OverSet(lens: seq<bitlen>, root: nat, l: nat, n: nat): set<nat> {
    set q: nat | q < n && Longest(lens, |lens|, root, q) > l
  }

  lemma {:induction false} OverIs(lens: seq<bitlen>, root: nat, l: nat, n: nat)
    ensures Over(lens, root, l, n) == |OverSet(lens, root, l, n)|
  {
    hide Longest;
    if n > 0 {
      OverIs(lens, root, l, n - 1);
      var a := OverSet(lens, root, l, n - 1);
      assert OverSet(lens, root, l, n) == if Longest(lens, |lens|, root, n - 1) > l then a + {n - 1} else a;
    } else {
      assert OverSet(lens, root, l, 0) == {};
    }
  }

  // The slot of a word longer than l stands where the words up to l have ended.
  lemma OverStands(lens: seq<bitlen>, root: nat, l: nat, slot: nat)
    requires Kraft(lens) <= Pow2(15) && root <= l < 15 && Longest(lens, |lens|, root, slot) > l
    ensures Hi(Below(lens, |lens|, l + 1, 0), 15 - root) <= Rev(slot, root) < Pow2(root)
  {
    hide Longest, Below, Kraft, Pow2, Rev, Hi, LinkSlot, Start;
    var s := LongestIs(lens, |lens|, root, slot);
    PrefixOfSlot(lens, root, s);
    StartsAfter(lens, s, l);
    HiMono(Below(lens, |lens|, l + 1, 0), Start(lens, s), 15 - root);
  }

  lemma StartsAfter(lens: seq<bitlen>, s: nat, l: nat)
    requires s < |lens| && l < lens[s]
    ensures Below(lens, |lens|, l + 1, 0) <= Start(lens, s)
  {
    BelowMono(lens, |lens|, l + 1, 0, lens[s], s);
  }

  lemma OverAtMost(lens: seq<bitlen>, root: nat, l: nat)
    requires Kraft(lens) == Pow2(15) && root <= l < 15
    ensures var t := Hi(Below(lens, |lens|, l + 1, 0), 15 - root);
      t <= Pow2(root) && Over(lens, root, l, Pow2(root)) <= Pow2(root) - t
  {
    hide Longest, Below, Kraft, Pow2, Rev, Hi, Over;
    var t := Hi(Below(lens, |lens|, l + 1, 0), 15 - root);
    var a := OverSet(lens, root, l, Pow2(root));
    RoomEnds(lens, root, l);
    OverIs(lens, root, l, Pow2(root));
    ReversedSize(a, root);
    forall q | q in Reversed(a, root) ensures q in Range(t, Pow2(root)) {
      var n :| n in a && Rev(n, root) == q;
      OverStands(lens, root, l, n);
    }
    SubsetSize(Reversed(a, root), Range(t, Pow2(root)));
  }

  lemma RoomEnds(lens: seq<bitlen>, root: nat, l: nat)
    requires Kraft(lens) == Pow2(15) && root <= l < 15
    ensures Hi(Below(lens, |lens|, l + 1, 0), 15 - root) <= Pow2(root)
  {
    hide Pow2, Hi, Below;
    BelowMono(lens, |lens|, l + 1, 0, 16, 0);
    assert Kraft(lens) == Below(lens, |lens|, 16, 0);
    HiMono(Below(lens, |lens|, l + 1, 0), Pow2(15), 15 - root);
    Pow2Add(root, 15 - root);
    LoOfJoin(Pow2(root), 0, 15 - root);
  }

  // In words of level l: as many as are left, and one slot that may begin before them.
  lemma OverWords(lens: seq<bitlen>, root: nat, l: nat)
    requires Kraft(lens) == Pow2(15) && root <= l < 15
    ensures Over(lens, root, l, Pow2(root)) * Pow2(l - root) <= Inner(lens, l) + Pow2(l - root) - 1
  {
    hide Longest, Below, Kraft, Pow2, Rev, Hi, Over, Inner;
    OverAtMost(lens, root, l);
    InnerRoom(lens, l);
    var b := Below(lens, |lens|, l + 1, 0);
    LoHi(b, 15 - root);
    Pow2Add(l - root, 15 - l);
    Pow2Add(root, l - root);
    SlotsLeft(Pow2(root), Hi(b, 15 - root), Over(lens, root, l, Pow2(root)), Pow2(l) - Inner(lens, l), Pow2(l - root),
              Pow2(15 - l), Lo(b, 15 - root));
  }

  lemma SlotsLeft(all: nat, t: nat, over: nat, v: int, w: nat, u: nat, r: nat)
    requires t <= all && over <= all - t && u > 0 && v * u == t * (w * u) + r && r < w * u
    ensures over * w <= all * w - v + w - 1
  {
    MulAssoc(t, w, u);
    LessThanNext(v, t * w, w, u, r);
    MulMono(over, all - t, w);
    MulAdd(all - t, t, w);
  }

  lemma LessThanNext(v: int, a: int, w: nat, u: nat, r: nat)
    requires u > 0 && v * u == a * u + r && r < w * u
    ensures v <= a + w - 1
  {
    if v >= a + w {
      MulMono(w, v - a, u);
      MulAdd(v - a, a, u);
    }
  }

  lemma {:induction false} LevelsAtMost(lens: seq<bitlen>, root: nat, m: nat)
    requires Kraft(lens) == Pow2(15) && root <= m <= 15
    ensures OverLevels(lens, root, m, Pow2(root)) <= SumInner(lens, root, m) + Pow2(m - root) - 1 - (m - root)
  {
    hide Over, Kraft, Inner;
    if m > root {
      LevelsAtMost(lens, root, m - 1);
      OverWords(lens, root, m - 1);
    }
  }

  // The sub-tables have no more entries than there are long words, but for what each level wastes.
  lemma SubTablesAtMost(lens: seq<bitlen>, root: nat)
    requires Kraft(lens) == Pow2(15) && root < 15
    ensures SlotSum(lens, root, Slots(lens, root), Pow2(root))
         <= WordsTo(lens, |lens|, 15) - WordsTo(lens, |lens|, root) + Pow2(15 - root) - 1 - (15 - root)
  {
    hide Over, OverLevels, Kraft, Inner, Slots, SlotSum, WordsTo, SumInner;
    SumByLevels(lens, root, Slots(lens, root), Pow2(root));
    LevelsAtMost(lens, root, 15);
    OverWords(lens, root, root);
    assert Pow2(0) == 1;
    Balance(lens, root, 15);
    InnerFits(lens, 15);
  }

  lemma {:induction false} SumEven(lens: seq<bitlen>, root: nat, slots: set<nat>, n: nat)
    ensures SlotSum(lens, root, slots, n) % 2 == 0
  {
    hide Longest;
    if n > 0 { SumEven(lens, root, slots, n - 1); }
  }

  // ------------------------------------------------------------ few short words leave much room

  lemma {:induction false} InnerAtLeast(lens: seq<bitlen>, l: nat)
    requires l > 0
    ensures var n := Count(lens, |lens|, 1);
      4 * Inner(lens, l) >= (4 - 2 * n - (WordsTo(lens, |lens|, l) - n)) * Pow2(l)
  {
    hide Count;
    var n := Count(lens, |lens|, 1);
    if l > 1 {
      InnerAtLeast(lens, l - 1);
      Pow2Mono(2, l);
      assert Pow2(2) == 4;
      Halved(4 - 2 * n - (WordsTo(lens, |lens|, l - 1) - n), Count(lens, |lens|, l), Pow2(l - 1), Inner(lens, l - 1));
    } else {
      assert Pow2(1) == 2 && Inner(lens, 1) == 2 * Inner(lens, 0) - n && Inner(lens, 0) == 1 && WordsTo(lens, |lens|, 1) == n;
    }
  }

  lemma Halved(z: int, k: nat, p: nat, i: int)
    requires 4 * i >= z * p && 4 <= 2 * p
    ensures 4 * (2 * i - k) >= (z - k) * (2 * p)
  {
    MulSub(z, k, 2 * p);
    MulMono(4, 2 * p, k);
    assert z * (2 * p) == 2 * (z * p);
  }

  lemma MulSub(a: int, b: int, c: int)
    ensures (a - b) * c == a * c - b * c
  {}

  lemma {:induction false} InnerGone(lens: seq<bitlen>, a: nat, b: nat)
    requires a <= b && Inner(lens, a) <= 0
    ensures Inner(lens, b) <= 0
  {
    if a < b { InnerGone(lens, a, b - 1); }
  }

  lemma {:induction false} SumGone(lens: seq<bitlen>, a: nat, b: nat)
    requires a <= b && Inner(lens, a) <= 0
    ensures SumInner(lens, a, b) <= 0
  {
    hide Inner;
    if a < b {
      SumGone(lens, a, b - 1);
      InnerGone(lens, a, b - 1);
    }
  }

  // With one short word at most, half of the code space is left; with two, a quarter; or nothing.
  lemma FewShort(lens: seq<bitlen>, root: nat)
    requires root > 1 && WordsTo(lens, |lens|, root) <= 2 && Inner(lens, root) > 0
    ensures 4 * Inner(lens, root) >= Pow2(root)
    ensures WordsTo(lens, |lens|, root) <= 1 ==> 2 * Inner(lens, root) >= Pow2(root)
  {
    var n, c := Count(lens, |lens|, 1), WordsTo(lens, |lens|, root);
    InnerAtLeast(lens, root);
    WordsGrow(lens, 1, root);
    if n >= 2 { InnerGone(lens, 1, root); }
    MulMono(1, 4 - 2 * n - (c - n), Pow2(root));
    if c <= 1 { MulMono(2, 4 - 2 * n - (c - n), Pow2(root)); }
  }

  lemma {:induction false} WordsGrow(lens: seq<bitlen>, a: nat, b: nat)
    requires a <= b
    ensures WordsTo(lens, |lens|, a) <= WordsTo(lens, |lens|, b)
  {
    if a < b { WordsGrow(lens, a, b - 1); }
  }

  // ------------------------------------------------------------ the bound

  // The words longer than the root width are two for every inner node there, or more.
  lemma LongWords(lens: seq<bitlen>, root: nat)
    requires Kraft(lens) == Pow2(15) && root < 15
    ensures WordsTo(lens, |lens|, 15) <= |lens|
    ensures WordsTo(lens, |lens|, 15) - WordsTo(lens, |lens|, root) >= 2 * Inner(lens, root)
    ensures Inner(lens, root) <= 0 ==> WordsTo(lens, |lens|, 15) - WordsTo(lens, |lens|, root) <= 0
  {
    hide Inner, Kraft, Pow2, WordsTo, SumInner;
    WordsAtMost(lens, |lens|, 15);
    Balance(lens, root, 15);
    InnerFits(lens, 15);
    SumInnerFits(lens, root, 15);
    if Inner(lens, root) <= 0 { SumGone(lens, root, 15); }
  }

  lemma LengthsFit(lens: seq<bitlen>)
    requires Kraft(lens) == Pow2(15) && |lens| <= 286
    ensures TableSize(lens, 9) <= 852
  {
    hide Inner, Kraft, SlotSum, Slots, WordsTo;
    assert Pow2(9) == 512 && Pow2(6) == 64;
    SubTablesAtMost(lens, 9);
    SumEven(lens, 9, Slots(lens, 9), Pow2(9));
    LongWords(lens, 9);
    if WordsTo(lens, |lens|, 9) <= 1 && Inner(lens, 9) > 0 { FewShort(lens, 9); }
  }

  lemma DistancesFit(lens: seq<bitlen>)
    requires Kraft(lens) == Pow2(15) && |lens| <= 30
    ensures TableSize(lens, 6) <= 592
  {
    hide Inner, Kraft, SlotSum, Slots, WordsTo;
    assert Pow2(6) == 64 && Pow2(9) == 512;
    SubTablesAtMost(lens, 6);
    SumEven(lens, 6, Slots(lens, 6), Pow2(6));
    LongWords(lens, 6);
    if WordsTo(lens, |lens|, 6) <= 2 && Inner(lens, 6) > 0 { FewShort(lens, 6); }
  }

  // No word is longer than the root width: there are no sub-tables.
  lemma OnlyRoot(lens: seq<bitlen>, root: nat)
    requires forall s | 0 <= s < |lens| :: lens[s] <= root
    ensures TableSize(lens, root) == Pow2(root)
  {
    hide SlotSum, LinkSlot;
    assert Slots(lens, root) == {};
    SumNone(lens, root, Pow2(root));
  }

  lemma {:induction false} NoShort(lens: seq<bitlen>, n: nat, l: nat)
    requires n <= |lens| && forall s | 0 <= s < n :: lens[s] == 0 || lens[s] > l
    ensures WordsTo(lens, n, l) == 0
  {
    if n > 0 {
      NoShort(lens, n - 1, l);
      WordsNext(lens, n - 1, l);
    } else {
      NoWords(lens, l);
    }
  }

  // So a complete code has a word no longer than the width asked for.
  lemma SomeShort(lens: seq<bitlen>, bits: nat, min: nat)
    requires Kraft(lens) == Pow2(15) && 1 < bits < 15 && |lens| < Pow2(bits)
    requires forall s | 0 <= s < |lens| && lens[s] != 0 :: min <= lens[s]
    ensures min <= bits
  {
    hide Inner, Kraft, Pow2, WordsTo;
    if bits < min {
      NoShort(lens, |lens|, bits);
      InnerAtLeast(lens, bits);
      WordsGrow(lens, 1, bits);
      NoWordOne(lens);
      FewShort(lens, bits);
      LongWords(lens, bits);
    }
  }

  lemma NoWordOne(lens: seq<bitlen>)
    ensures WordsTo(lens, |lens|, 1) == Count(lens, |lens|, 1)
  {
    assert WordsTo(lens, |lens|, 0) == 0;
  }

  // With the root widths inflate asks for, and as many lengths as it lets through, there is
  // always enough space.
  lemma Enough(kind: CodeType, lens: seq<bitlen>, bits: nat, root: nat)
    requires |lens| <= MaxSymbols(kind) && RootBits(lens, bits, root) && Acceptable(kind, lens) && SomeCode(lens)
    requires (kind == LENS && bits == 9 && |lens| <= 286) || (kind == DISTS && bits == 6 && |lens| <= 30)
    ensures TableSize(lens, root) <= if kind == LENS then 852 else 592
  {
    hide Kraft, TableSize, SomeCode;
    var min: nat, max: nat :|
      LengthRange(lens, min, max) && max > 0 && root == if bits > max then max else if bits < min then min else bits;
    assert Pow2(9) == 512 && Pow2(6) == 64;
    if bits > max {
      OnlyRoot(lens, max);
      Pow2Mono(max, bits);
    } else {
      var s :| 0 <= s < |lens| && lens[s] == max;
      SomeShort(lens, bits, min);
      if kind == LENS { LengthsFit(lens); } else { DistancesFit(lens); }
    }
  }
}
