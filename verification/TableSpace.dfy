// How much table space inflate_table uses (deps/zlib/inftrees.c:215-283): the root table, and for
// every root slot that long code words share, a sub-table as wide as the longest of them.

module TableSpace {
  import opened Powers
  import opened Bits
  import opened Canonical
  import opened SymbolOrder
  import opened TableLayout
  import opened TableSteps

  // The length of the longest word in a root slot; 0 for a slot without words longer than root.
  function Longest(lens: seq<bitlen>, n: nat, root: nat, slot: nat): nat
    requires n <= |lens|
  {
    if n == 0 then 0
    else
      var m := Longest(lens, n - 1, root, slot);
      if lens[n - 1] > root && LinkSlot(root, lens, n - 1) == slot && lens[n - 1] > m then lens[n - 1] else m
  }

  lemma {:induction false} LongestAtLeast(lens: seq<bitlen>, n: nat, root: nat, slot: nat, s: nat)
    requires n <= |lens| && s < n && lens[s] > root && LinkSlot(root, lens, s) == slot
    ensures Longest(lens, n, root, slot) >= lens[s]
  {
    if s < n - 1 { LongestAtLeast(lens, n - 1, root, slot, s); }
  }

  lemma {:induction false} LongestIs(lens: seq<bitlen>, n: nat, root: nat, slot: nat) returns (s: nat)
    requires n <= |lens| && Longest(lens, n, root, slot) > 0
    ensures s < n && lens[s] > root && LinkSlot(root, lens, s) == slot && lens[s] == Longest(lens, n, root, slot)
  {
    if lens[n - 1] > root && LinkSlot(root, lens, n - 1) == slot && lens[n - 1] > Longest(lens, n - 1, root, slot) {
      s := n - 1;
    } else {
      s := LongestIs(lens, n - 1, root, slot);
    }
  }

  // The slots that words longer than root share.
  function Slots(lens: seq<bitlen>, root: nat): set<nat> {
    set s | 0 <= s < |lens| && lens[s] > root :: LinkSlot(root, lens, s)
  }

  function SubSize(lens: seq<bitlen>, root: nat, slot: nat): nat {
    var l := Longest(lens, |lens|, root, slot);
    if l > root then Pow2(l - root) else 0
  }

  // The sub-tables of the slots of a set below n.
  function SlotSum(lens: seq<bitlen>, root: nat, slots: set<nat>, n: nat): nat {
    if n == 0 then 0
    else SlotSum(lens, root, slots, n - 1) + (if n - 1 in slots then SubSize(lens, root, n - 1) else 0)
  }

  // Entries of the whole table.
  function TableSize(lens: seq<bitlen>, root: nat): nat {
    Pow2(root) + SlotSum(lens, root, Slots(lens, root), Pow2(root))
  }

  lemma {:induction false} SumAdds(lens: seq<bitlen>, root: nat, slots: set<nat>, slot: nat, n: nat)
    requires slot !in slots
    ensures SlotSum(lens, root, slots + {slot}, n)
         == SlotSum(lens, root, slots, n) + (if slot < n then SubSize(lens, root, slot) else 0)
  {
    hide SubSize;
    if n > 0 { SumAdds(lens, root, slots, slot, n - 1); }
  }

  lemma {:induction false} SumMono(lens: seq<bitlen>, root: nat, slots: set<nat>, more: set<nat>, n: nat)
    requires slots <= more
    ensures SlotSum(lens, root, slots, n) <= SlotSum(lens, root, more, n)
  {
    hide SubSize;
    if n > 0 { SumMono(lens, root, slots, more, n - 1); }
  }

  lemma {:induction false} SumNone(lens: seq<bitlen>, root: nat, n: nat)
    ensures SlotSum(lens, root, {}, n) == 0
  {
    hide SubSize;
    if n > 0 { SumNone(lens, root, n - 1); }
  }

  // ------------------------------------------------------------ the size so far

  // The slots of the first n symbols in canonical order.
  function Opened(lens: seq<bitlen>, order: seq<nat>, n: nat, root: nat): set<nat>
    requires n <= |order| && forall k :: 0 <= k < |order| ==> order[k] < |lens|
  {
    set k | 0 <= k < n && lens[order[k]] > root :: LinkSlot(root, lens, order[k])
  }

  ghost function SizeAt(lens: seq<bitlen>, order: seq<nat>, n: nat, root: nat): nat
    requires Sorted(lens, order) && n <= |order|
  {
    Pow2(root) + SlotSum(lens, root, Opened(lens, order, n, root), Pow2(root))
  }

  lemma SizeStart(lens: seq<bitlen>, order: seq<nat>, root: nat)
    requires Sorted(lens, order) && 0 < |order| && lens[order[0]] <= root
    ensures SizeAt(lens, order, 1, root) == Pow2(root)
  {
    hide LinkSlot, SlotSum, RankOf;
    assert Opened(lens, order, 1, root) == {};
    SumNone(lens, root, Pow2(root));
  }

  // A symbol that opens no sub-table.
  lemma SizeStay(lens: seq<bitlen>, order: seq<nat>, n: nat, root: nat)
    requires Sorted(lens, order) && 0 < n < |order|
    requires lens[order[n]] <= root
          || (lens[order[n - 1]] > root && LinkSlot(root, lens, order[n - 1]) == LinkSlot(root, lens, order[n]))
    ensures SizeAt(lens, order, n + 1, root) == SizeAt(lens, order, n, root)
  {
    hide LinkSlot, SlotSum, RankOf;
    assert Opened(lens, order, n + 1, root) == Opened(lens, order, n, root);
  }

  // A symbol that opens one.
  lemma SizeGrow(lens: seq<bitlen>, order: seq<nat>, n: nat, root: nat)
    requires Sorted(lens, order) && n < |order| && lens[order[n]] > root
    requires forall k :: 0 <= k < n && lens[order[k]] > root ==> LinkSlot(root, lens, order[k]) != LinkSlot(root, lens, order[n])
    ensures SizeAt(lens, order, n + 1, root)
         == SizeAt(lens, order, n, root) + SubSize(lens, root, LinkSlot(root, lens, order[n]))
  {
    hide SlotSum, RankOf, SubSize;
    var slot := LinkSlot(root, lens, order[n]);
    GrownSlots(lens, order, n, root);
    SumAdds(lens, root, Opened(lens, order, n, root), slot, Pow2(root));
  }

  lemma GrownSlots(lens: seq<bitlen>, order: seq<nat>, n: nat, root: nat)
    requires Sorted(lens, order) && n < |order| && lens[order[n]] > root
    requires forall k :: 0 <= k < n && lens[order[k]] > root ==> LinkSlot(root, lens, order[k]) != LinkSlot(root, lens, order[n])
    ensures Opened(lens, order, n + 1, root) == Opened(lens, order, n, root) + {LinkSlot(root, lens, order[n])}
    ensures LinkSlot(root, lens, order[n]) !in Opened(lens, order, n, root)
  {
    hide LinkSlot, RankOf;
  }

  lemma AllOpened(lens: seq<bitlen>, order: seq<nat>, root: nat)
    requires Sorted(lens, order)
    ensures Opened(lens, order, |order|, root) == Slots(lens, root)
  {
    hide LinkSlot;
    var a, b := Opened(lens, order, |order|, root), Slots(lens, root);
    forall p | p in b ensures p in a {
      var s :| 0 <= s < |lens| && lens[s] > root && LinkSlot(root, lens, s) == p;
      var k := SortedCovers(lens, order, s);
    }
  }

  lemma SizeEnd(lens: seq<bitlen>, order: seq<nat>, n: nat, root: nat)
    requires Sorted(lens, order) && n <= |order|
    ensures SizeAt(lens, order, |order|, root) == TableSize(lens, root)
    ensures SizeAt(lens, order, n, root) <= TableSize(lens, root)
  {
    hide SlotSum, LinkSlot, RankOf;
    AllOpened(lens, order, root);
    assert Opened(lens, order, n, root) <= Opened(lens, order, |order|, root);
    SumMono(lens, root, Opened(lens, order, n, root), Opened(lens, order, |order|, root), Pow2(root));
  }

  // ------------------------------------------------------------ a sub-table is as wide as its longest word

  // The end of a short word stands between two slots.
  lemma ShortAligned(lens: seq<bitlen>, r: nat, root: nat)
    requires Coded(lens, r) && Kraft(lens) <= Pow2(15) && lens[r] <= root <= 15
    ensures Lo(Start(lens, r) + Width(lens[r]), 15 - root) == 0
  {
    hide Kraft, Start, Code, Pow2, Lo;
    var c, l := Code(lens, r), lens[r];
    CodeFits(lens, r);
    MulAdd(c, 1, Pow2(15 - l));
    WholeBlocks(c + 1, root - l, 15 - root);
  }

  // So does the end of a long one, when what follows is in another slot.
  lemma LongAligned(lens: seq<bitlen>, r: nat, s: nat, root: nat)
    requires Coded(lens, r) && Coded(lens, s) && Kraft(lens) <= Pow2(15) && root < lens[r]
    requires Start(lens, s) == Start(lens, r) + Width(lens[r])
    requires LinkSlot(root, lens, r) != LinkSlot(root, lens, s)
    ensures Lo(Start(lens, s), 15 - root) == 0
  {
    hide Kraft, Start, Code, Pow2, Lo, Hi, LinkSlot;
    var c, l := Code(lens, r), lens[r];
    CodeFits(lens, r);
    MulAdd(c, 1, Pow2(15 - l));
    SameSlotSamePrefix(lens, root, r, s);
    HiMono(Start(lens, r), Start(lens, s), 15 - root);
    NextAligned(c, 15 - l, 15 - root);
  }

  // The first word of a slot starts where the slot does.
  lemma SlotAligned(lens: seq<bitlen>, order: seq<nat>, n: nat, root: nat)
    requires Sorted(lens, order) && 0 < n < |order| && Kraft(lens) <= Pow2(15) && root <= 15
    requires lens[order[n - 1]] <= root || LinkSlot(root, lens, order[n - 1]) != LinkSlot(root, lens, order[n])
    ensures Lo(Start(lens, order[n]), 15 - root) == 0
  {
    hide Kraft, Start, Pow2, Lo, Hi, LinkSlot, RankOf;
    SortedNext(lens, order, n - 1);
    if lens[order[n - 1]] <= root {
      ShortAligned(lens, order[n - 1], root);
    } else {
      LongAligned(lens, order[n - 1], order[n], root);
    }
  }

  lemma WholeBlocks(c: nat, m: nat, d: nat)
    ensures Lo(c * Pow2(m + d), d) == 0
  {
    Pow2Add(m, d);
    MulAssoc(c, Pow2(m), Pow2(d));
    LoOfJoin(c * Pow2(m), 0, d);
  }

  // A step of one unit out of a block ends at the next block.
  lemma NextAligned(c: nat, m: nat, d: nat)
    requires m <= d && Hi(c * Pow2(m), d) < Hi((c + 1) * Pow2(m), d)
    ensures Lo((c + 1) * Pow2(m), d) == 0
  {
    hide Pow2, Lo, Hi;
    var w, b := Pow2(m), Pow2(d - m);
    var x, y := c * w, (c + 1) * w;
    MulAdd(c, 1, w);
    Pow2Add(d - m, m);
    LoHi(x, d);
    LoHi(y, d);
    var h := Hi(x, d);
    MulAssoc(h, b, w);
    MulAdd(c - h * b, h * b, w);
    assert Lo(x, d) == (c - h * b) * w;
    OneMore(c - h * b, b, w);
    MulAdd(h, 1, Pow2(d));
    MulMono(h + 1, Hi(y, d), Pow2(d));
  }

  lemma OneMore(k: int, b: nat, w: nat)
    requires 0 <= k * w < b * w && w > 0
    ensures k * w + w <= b * w
  {
    MulAdd(k, 1, w);
    if k < 0 {
      MulMono(1, -k, w);
    } else if k >= b {
      MulMono(b, k, w);
    } else {
      MulMono(k + 1, b, w);
    }
  }

  lemma SlotSpan(x: nat, y: nat, d: nat)
    requires Lo(x, d) == 0 && x <= y < x + Pow2(d)
    ensures Hi(y, d) == Hi(x, d)
  {
    LoHi(x, d);
    LoOfJoin(Hi(x, d), y - x, d);
  }

  // A word of length l, for every l the sizing loop goes on to.
  lemma NeededWord(lens: seq<bitlen>, root: nat, s: nat, l: nat) returns (u: nat)
    requires Coded(lens, s) && Kraft(lens) == Pow2(15) && root < lens[s] <= l <= 15
    requires Lo(Start(lens, s), 15 - root) == 0
    requires Needed(lens, root, s, l)
    ensures Coded(lens, u) && lens[u] >= l && Start(lens, s) <= Start(lens, u)
    ensures LinkSlot(root, lens, u) == LinkSlot(root, lens, s)
  {
    if l == lens[s] {
      u := s;
    } else {
      var d := 15 - root;
      var x := Below(lens, |lens|, l, 0);
      LevelStartLater(lens, s, l);
      SlotInside(lens, root, s);
      u := FindBelow(lens, 16, 0, x);
      if lens[u] < l { BelowGap(lens, |lens|, u, l, 0); }
      if Start(lens, u) < Start(lens, s) { CoversUnique(lens, u, s, Start(lens, s)); }
      SlotSpan(Start(lens, s), Start(lens, u), d);
      SameSlotSamePrefix(lens, root, s, u);
    }
  }

  // A slot that begins inside the code space ends inside it.
  lemma SlotInside(lens: seq<bitlen>, root: nat, s: nat)
    requires Coded(lens, s) && Kraft(lens) <= Pow2(15) && root <= 15 && Lo(Start(lens, s), 15 - root) == 0
    ensures Start(lens, s) + Pow2(15 - root) <= Pow2(15)
  {
    hide Kraft, Start, Lo, Hi, Pow2;
    var d := 15 - root;
    var q := Hi(Start(lens, s), d);
    CoversBelowKraft(lens, s);
    LoHi(Start(lens, s), d);
    Pow2Add(root, d);
    if q >= Pow2(root) { MulMono(Pow2(root), q, Pow2(d)); }
    MulMono(q + 1, Pow2(root), Pow2(d));
    MulAdd(q, 1, Pow2(d));
  }

  lemma SizeIsLongest(lens: seq<bitlen>, root: nat, s: nat, l: nat)
    requires Coded(lens, s) && Kraft(lens) == Pow2(15) && root < lens[s] <= l <= 15
    requires Lo(Start(lens, s), 15 - root) == 0
    requires Needed(lens, root, s, l) && SubBound(lens, root, s, l)
    ensures Longest(lens, |lens|, root, LinkSlot(root, lens, s)) == l
  {
    hide Needed, LinkSlot;
    var slot := LinkSlot(root, lens, s);
    var u := NeededWord(lens, root, s, l);
    LongestAtLeast(lens, |lens|, root, slot, u);
    var v := LongestIs(lens, |lens|, root, slot);
    SlotFrom(lens, root, s, v);
  }

  // No word of a slot lies before the slot.
  lemma SlotFrom(lens: seq<bitlen>, root: nat, s: nat, v: nat)
    requires Coded(lens, s) && Coded(lens, v) && Kraft(lens) <= Pow2(15) && root <= 15
    requires Lo(Start(lens, s), 15 - root) == 0 && LinkSlot(root, lens, v) == LinkSlot(root, lens, s)
    ensures Start(lens, s) <= Start(lens, v)
  {
    SameSlotSamePrefix(lens, root, s, v);
    LoHi(Start(lens, s), 15 - root);
    LoHi(Start(lens, v), 15 - root);
  }
}
