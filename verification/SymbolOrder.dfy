// The first half of inflate_table (deps/zlib/inftrees.c): counting the code
// lengths, checking the Kraft sum, and sorting the symbols canonically.

module SymbolOrder {
  import opened Powers
  import opened Canonical
  import opened TreeCodes

  // How many of the first n symbols come before position (l, k).
  function Rank(lens: seq<bitlen>, n: nat, l: nat, k: nat): nat
    requires n <= |lens|
  {
    if n == 0 then 0
    else Rank(lens, n - 1, l, k) + (if Before(lens[n - 1], n - 1, l, k) then 1 else 0)
  }

  function SymbolCount(lens: seq<bitlen>): nat {
    Rank(lens, |lens|, 16, 0)
  }

  lemma {:induction false} RankLevel(lens: seq<bitlen>, n: nat, l: nat)
    requires n <= |lens|
    ensures Rank(lens, n, l + 1, 0) == Rank(lens, n, l, 0) + (if l == 0 then 0 else Count(lens, n, l))
  {
    if n > 0 { RankLevel(lens, n - 1, l); }
  }

  lemma {:induction false} RankZero(lens: seq<bitlen>, n: nat)
    requires n <= |lens|
    ensures Rank(lens, n, 0, 0) == 0
  {
    if n > 0 { RankZero(lens, n - 1); }
  }

  // Within one length, rank counts the earlier symbols of that length.
  lemma {:induction false} RankInLevel(lens: seq<bitlen>, n: nat, l: nat, k: nat)
    requires n <= |lens| && k <= |lens| && 0 < l
    ensures Rank(lens, n, l, k) == Rank(lens, n, l, 0) + Count(lens, if k < n then k else n, l)
  {
    if n > 0 { RankInLevel(lens, n - 1, l, k); }
  }

  // Rank never falls along the order, and where it stands still nothing is passed over.
  lemma {:induction false} RankMono(lens: seq<bitlen>, n: nat, l: nat, k: nat, l2: nat, k2: nat)
    requires n <= |lens| && (l < l2 || (l == l2 && k <= k2))
    ensures Rank(lens, n, l, k) <= Rank(lens, n, l2, k2)
    ensures Rank(lens, n, l, k) == Rank(lens, n, l2, k2) ==> Below(lens, n, l, k) == Below(lens, n, l2, k2)
  {
    if n > 0 { RankMono(lens, n - 1, l, k, l2, k2); }
  }

  lemma {:induction false} RankStep(lens: seq<bitlen>, n: nat, l: nat, k: nat)
    requires n <= |lens| && 0 < l
    ensures Rank(lens, n, l, k + 1) == Rank(lens, n, l, k) + (if k < n && lens[k] == l then 1 else 0)
  {
    if n > 0 { RankStep(lens, n - 1, l, k); }
  }

  function RankOf(lens: seq<bitlen>, s: nat): nat
    requires s < |lens|
  {
    Rank(lens, |lens|, lens[s], s)
  }

  lemma RankStrict(lens: seq<bitlen>, s: nat, l2: nat, k2: nat)
    requires Coded(lens, s) && Before(lens[s], s, l2, k2)
    ensures RankOf(lens, s) < Rank(lens, |lens|, l2, k2)
  {
    RankStep(lens, |lens|, lens[s], s);
    RankMono(lens, |lens|, lens[s], s + 1, l2, k2);
  }

  lemma {:induction false} FindRank(lens: seq<bitlen>, l: nat, k: nat, r: nat) returns (s: nat)
    requires k <= |lens| && l <= 16 && r < Rank(lens, |lens|, l, k)
    ensures Coded(lens, s) && RankOf(lens, s) == r
    decreases l, k
  {
    if l == 0 {
      RankNothing(lens, |lens|, k);
    } else if k == 0 {
      RankTop(lens, |lens|, l - 1, |lens|);
      s := FindRank(lens, l - 1, |lens|, r);
    } else {
      RankStep(lens, |lens|, l, k - 1);
      if r < Rank(lens, |lens|, l, k - 1) {
        s := FindRank(lens, l, k - 1, r);
      } else {
        s := k - 1;
      }
    }
  }

  lemma {:induction false} RankNothing(lens: seq<bitlen>, n: nat, k: nat)
    requires n <= |lens|
    ensures Rank(lens, n, 0, k) == 0
  {
    if n > 0 { RankNothing(lens, n - 1, k); }
  }

  lemma {:induction false} RankTop(lens: seq<bitlen>, n: nat, l: nat, k: nat)
    requires n <= |lens| && n <= k
    ensures Rank(lens, n, l + 1, 0) == Rank(lens, n, l, k)
  {
    if n > 0 { RankTop(lens, n - 1, l, k); }
  }

  // ------------------------------------------------------------ sorted symbols

  // order lists the coded symbols in canonical order, without gaps.
  ghost predicate Sorted(lens: seq<bitlen>, order: seq<nat>) {
    && |order| == SymbolCount(lens)
    && forall k :: 0 <= k < |order| ==> Coded(lens, order[k]) && RankOf(lens, order[k]) == k
  }

  lemma SortedFirst(lens: seq<bitlen>, order: seq<nat>)
    requires Sorted(lens, order) && |order| > 0
    ensures Start(lens, order[0]) == 0
  {
    RankMono(lens, |lens|, 0, 0, lens[order[0]], order[0]);
    RankNothing(lens, |lens|, 0);
    BelowNothing(lens, |lens|, 0);
  }

  // Where one symbol's interval ends the next one begins.
  lemma SortedNext(lens: seq<bitlen>, order: seq<nat>, k: nat)
    requires Sorted(lens, order) && k < |order|
    ensures k + 1 < |order| ==> Start(lens, order[k]) + Width(lens[order[k]]) == Start(lens, order[k + 1])
    ensures k + 1 < |order| ==> lens[order[k]] <= lens[order[k + 1]]
    ensures k + 1 == |order| ==> Start(lens, order[k]) + Width(lens[order[k]]) == Kraft(lens)
  {
    var s := order[k];
    RankStep(lens, |lens|, lens[s], s);
    BelowStep(lens, |lens|, lens[s], s);
    if k + 1 < |order| {
      var t := order[k + 1];
      if lens[t] < lens[s] || (lens[t] == lens[s] && t <= s) {
        RankMono(lens, |lens|, lens[t], t, lens[s], s);
      }
      RankMono(lens, |lens|, lens[s], s + 1, lens[t], t);
    } else {
      RankMono(lens, |lens|, lens[s], s + 1, 16, 0);
    }
  }

  lemma SortedCovers(lens: seq<bitlen>, order: seq<nat>, s: nat) returns (k: nat)
    requires Sorted(lens, order) && Coded(lens, s)
    ensures k < |order| && order[k] == s
  {
    k := RankOf(lens, s);
    RankStrict(lens, s, 16, 0);
    RankInjective(lens, s, order[k]);
  }

  lemma RankInjective(lens: seq<bitlen>, s: nat, t: nat)
    requires Coded(lens, s) && Coded(lens, t) && RankOf(lens, s) == RankOf(lens, t)
    ensures s == t
  {
    if Before(lens[s], s, lens[t], t) {
      RankStrict(lens, s, lens[t], t);
    } else if s != t {
      RankStrict(lens, t, lens[s], s);
    }
  }

  // ------------------------------------------------------------ the loops

  method CountLens(lens: seq<bitlen>) returns (count: array<nat>)
    ensures fresh(count) && count.Length == 16
    ensures forall l :: 0 <= l <= 15 ==> count[l] == Count(lens, |lens|, l)
  {
    count := new nat[16](_ => 0);
    var sym := 0;
    while sym < |lens|
      invariant 0 <= sym <= |lens|
      invariant forall l :: 0 <= l <= 15 ==> count[l] == Count(lens, sym, l)
    {
      count[lens[sym]] := count[lens[sym]] + 1;
      sym := sym + 1;
    }
  }

  // The lengths in use are exactly min..max; max is 0 when there is no code at all.
  ghost predicate LengthRange(lens: seq<bitlen>, min: nat, max: nat) {
    && max <= 15
    && (forall s :: 0 <= s < |lens| && lens[s] != 0 ==> min <= lens[s] <= max)
    && (max > 0 ==> exists s :: 0 <= s < |lens| && lens[s] == max)
    && (max > 0 ==> exists s :: 0 <= s < |lens| && lens[s] == min)
    && (max > 0 ==> 1 <= min <= max)
  }

  lemma {:induction false} CountPositive(lens: seq<bitlen>, n: nat, l: nat)
    requires n <= |lens|
    ensures Count(lens, n, l) > 0 <==> exists s :: 0 <= s < n && lens[s] == l
  {
    if n > 0 { CountPositive(lens, n - 1, l); }
  }

  method FindRange(ghost lens: seq<bitlen>, count: array<nat>) returns (min: nat, max: nat)
    requires count.Length == 16
    requires forall l :: 0 <= l <= 15 ==> count[l] == Count(lens, |lens|, l)
    ensures LengthRange(lens, min, max)
  {
    max := 15;
    while max >= 1 && count[max] == 0
      invariant 0 <= max <= 15
      invariant forall l :: max < l <= 15 ==> count[l] == 0
    {
      max := max - 1;
    }
    min := 1;
    while min < max && count[min] == 0
      invariant 1 <= min <= 16 && (max > 0 ==> min <= max)
      invariant forall l :: 1 <= l < min ==> count[l] == 0
    {
      min := min + 1;
    }
    forall s | 0 <= s < |lens| && lens[s] != 0 ensures min <= lens[s] <= max {
      CountPositive(lens, |lens|, lens[s]);
    }
    if max > 0 {
      CountPositive(lens, |lens|, max);
      CountPositive(lens, |lens|, min);
    }
  }

  // Level by level, what is left of the code space; negative once over-subscribed.
  method CheckLengths(ghost lens: seq<bitlen>, count: array<nat>) returns (left: int)
    requires count.Length == 16
    requires forall l :: 0 <= l <= 15 ==> count[l] == Count(lens, |lens|, l)
    ensures left < 0 <==> Kraft(lens) > Pow2(15)
    ensures left >= 0 ==> left == Pow2(15) - Kraft(lens)
  {
    left := 1;
    var len := 1;
    UnitsZero(lens, |lens|);
    UnitsLevel(lens, |lens|, 0);
    while len <= 15
      invariant 1 <= len <= 16
      invariant 0 <= left && 2 * left == Pow2(len) - Units(lens, |lens|, len, 0)
    {
      UnitsLevel(lens, |lens|, len);
      left := left * 2;
      left := left - count[len];
      if left < 0 {
        OverSubscribed(lens, len);
        return;
      }
      len := len + 1;
    }
    BelowUnits16(lens, |lens|);
  }

  lemma {:induction false} BelowUnits16(lens: seq<bitlen>, n: nat)
    requires n <= |lens|
    ensures Units(lens, n, 16, 0) == 2 * Below(lens, n, 16, 0)
  {
    if n > 0 {
      BelowUnits16(lens, n - 1);
      var m := lens[n - 1];
      if m > 0 { assert Pow2(16 - m) == 2 * Pow2(15 - m); }
    }
  }

  lemma OverSubscribed(lens: seq<bitlen>, l: nat)
    requires 1 <= l <= 15 && Units(lens, |lens|, l + 1, 0) > 2 * Pow2(l)
    ensures Kraft(lens) > Pow2(15)
  {
    hide Below, Units, Pow2;
    BelowMono(lens, |lens|, l + 1, 0, 16, 0);
    TwicePow(l);
    if l == 15 {
      BelowUnits16(lens, |lens|);
    } else {
      BelowUnits(lens, |lens|, l + 1, 0);
      Pow2Split(l + 1, 15);
      MoreTimes(Pow2(l + 1), Units(lens, |lens|, l + 1, 0), Pow2(14 - l));
    }
  }

  lemma TwicePow(l: nat)
    ensures Pow2(l + 1) == 2 * Pow2(l)
  {}

  lemma MoreTimes(a: nat, b: nat, c: nat)
    requires a < b && c > 0
    ensures a * c < b * c
  {
    MulMono(a + 1, b, c);
    MulAdd(a, 1, c);
  }

  method Offsets(ghost lens: seq<bitlen>, count: array<nat>) returns (offs: array<nat>)
    requires count.Length == 16
    requires forall l :: 0 <= l <= 15 ==> count[l] == Count(lens, |lens|, l)
    ensures fresh(offs) && offs.Length == 16
    ensures forall l :: 1 <= l <= 15 ==> offs[l] == Rank(lens, |lens|, l, 0)
  {
    offs := new nat[16];
    offs[1] := 0;
    RankZero(lens, |lens|);
    RankLevel(lens, |lens|, 0);
    var len := 1;
    while len < 15
      invariant 1 <= len <= 15
      invariant forall l :: 1 <= l <= len ==> offs[l] == Rank(lens, |lens|, l, 0)
    {
      RankLevel(lens, |lens|, len);
      offs[len + 1] := offs[len] + count[len];
      len := len + 1;
    }
  }

  lemma OffsetOf(lens: seq<bitlen>, l: bitlen, k: nat)
    requires k <= |lens| && 0 < l
    ensures Rank(lens, |lens|, l, k) == Rank(lens, |lens|, l, 0) + Count(lens, k, l)
  {
    RankInLevel(lens, |lens|, l, k);
  }

  // Counting sort: symbol s goes to the place given by its rank.
  method SortSymbols(lens: seq<bitlen>, count: array<nat>, work: array<nat>)
    requires count.Length == 16
    requires forall l :: 0 <= l <= 15 ==> count[l] == Count(lens, |lens|, l)
    requires |lens| <= work.Length && work != count
    modifies work
    ensures SymbolCount(lens) <= |lens|
    ensures Sorted(lens, work[..SymbolCount(lens)])
  {
    var offs := Offsets(lens, count);
    RankBound(lens, |lens|, 16, 0);
    var sym := 0;
    while sym < |lens|
      invariant 0 <= sym <= |lens|
      invariant offs.Length == 16
      invariant forall l :: 1 <= l <= 15 ==> offs[l] == Rank(lens, |lens|, l, 0) + Count(lens, sym, l)
      invariant forall s :: 0 <= s < sym && lens[s] != 0 ==> RankOf(lens, s) < work.Length && work[RankOf(lens, s)] == s
    {
      var l := lens[sym];
      if l != 0 {
        OffsetOf(lens, l, sym);
        RankStrict(lens, sym, 16, 0);
        forall s | 0 <= s < sym && lens[s] != 0 ensures RankOf(lens, s) != RankOf(lens, sym) {
          if RankOf(lens, s) == RankOf(lens, sym) { RankInjective(lens, s, sym); }
        }
        work[offs[l]] := sym;
        offs[l] := offs[l] + 1;
      }
      sym := sym + 1;
    }
    forall k | 0 <= k < SymbolCount(lens)
      ensures Coded(lens, work[k]) && RankOf(lens, work[k]) == k
    {
      var s := FindRank(lens, 16, 0, k);
    }
  }

  lemma {:induction false} RankBound(lens: seq<bitlen>, n: nat, l: nat, k: nat)
    requires n <= |lens|
    ensures Rank(lens, n, l, k) <= n
  {
    if n > 0 { RankBound(lens, n - 1, l, k); }
  }
}
