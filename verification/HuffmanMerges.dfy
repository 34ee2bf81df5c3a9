// The tree that build_tree grows, as the list of its merges, and sums over the nodes
// that have no parent yet.

module HuffmanMerges {
  import opened HuffmanCost

  // ------------------------------------------------------------ sums over nodes

  // The sum of g over the nodes in s.
  function Over(s: set<nat>, g: seq<int>): int {
    if g == [] then 0 else Over(s, g[..|g| - 1]) + if |g| - 1 in s then g[|g| - 1] else 0
  }

  lemma {:induction false} OverSame(s: set<nat>, g: seq<int>, h: seq<int>)
    requires |g| == |h| && forall i | 0 <= i < |g| && i in s :: g[i] == h[i]
    ensures Over(s, g) == Over(s, h)
  {
    if g != [] { OverSame(s, g[..|g| - 1], h[..|g| - 1]); }
  }

  lemma {:induction false} OverAdd(s: set<nat>, g: seq<int>, x: nat)
    requires x !in s
    ensures Over(s + {x}, g) == Over(s, g) + if x < |g| then g[x] else 0
  {
    if g != [] { OverAdd(s, g[..|g| - 1], x); }
  }

  lemma OverRemove(s: set<nat>, g: seq<int>, x: nat)
    requires x in s
    ensures Over(s - {x}, g) == Over(s, g) - if x < |g| then g[x] else 0
  {
    OverAdd(s - {x}, g, x);
    assert s - {x} + {x} == s;
  }

  lemma {:induction false} OverNone(g: seq<int>)
    ensures Over({}, g) == 0
  {
    if g != [] { OverNone(g[..|g| - 1]); }
  }

  lemma OverOne(g: seq<int>, x: nat)
    requires x < |g|
    ensures Over({x}, g) == g[x]
  {
    OverNone(g);
    OverAdd({}, g, x);
    assert {} + {x} == {x};
  }

  lemma {:induction false} OverLe(s: set<nat>, g: seq<int>, h: seq<int>)
    requires |g| == |h| && forall i | 0 <= i < |g| && i in s :: g[i] <= h[i]
    ensures Over(s, g) <= Over(s, h)
  {
    if g != [] { OverLe(s, g[..|g| - 1], h[..|h| - 1]); }
  }

  lemma {:induction false} OverPositive(s: set<nat>, g: seq<int>) returns (x: nat)
    requires Over(s, g) > 0
    ensures x in s && x < |g| && g[x] > 0
  {
    if |g| - 1 in s && g[|g| - 1] > 0 {
      x := |g| - 1;
    } else {
      x := OverPositive(s, g[..|g| - 1]);
    }
  }

  // d makes way for n and m, whose values change.
  lemma OverReplace(s: set<nat>, g: seq<int>, h: seq<int>, d: nat, n: nat, m: nat)
    requires |g| == |h| && d in s && d < |g| && n < |g| && m < |g| && n !in s && m !in s && n != m
    requires forall i | 0 <= i < |g| && i in s :: g[i] == h[i]
    ensures Over(s - {d} + {n, m}, h) == Over(s, g) - g[d] + h[n] + h[m]
  {
    OverSame(s, g, h);
    OverRemove(s, h, d);
    OverAdd(s - {d}, h, n);
    OverAdd(s - {d} + {n}, h, m);
    assert s - {d} + {n} + {m} == s - {d} + {n, m};
  }

  // ------------------------------------------------------------ merges

  datatype Pair = Pair(n: nat, m: nat)

  // All but the last merge.
  function Earlier(merges: seq<Pair>): (r: seq<Pair>)
    requires merges != []
    ensures |r| == |merges| - 1
  {
    merges[..|merges| - 1]
  }

  function Last(merges: seq<Pair>): Pair
    requires merges != []
  {
    merges[|merges| - 1]
  }

  // The nodes without a parent: merge j makes node elems + j the parent of two of them.
  function Frontier(leaves: set<nat>, elems: nat, merges: seq<Pair>): set<nat>
    decreases |merges|
  {
    if merges == [] then leaves
    else Frontier(leaves, elems, Earlier(merges)) - {Last(merges).n, Last(merges).m} + {elems + |merges| - 1}
  }

  predicate Lightest(freq: seq<nat>, s: set<nat>, n: nat) {
    n in s && n < |freq| && forall x | x in s :: x < |freq| && freq[n] <= freq[x]
  }

  // Every merge takes the two lightest nodes, and the new node weighs as much as both.
  predicate GoodMerges(freq: seq<nat>, leaves: set<nat>, elems: nat, merges: seq<Pair>)
    decreases |merges|
  {
    merges == [] ||
    (&& GoodMerges(freq, leaves, elems, Earlier(merges))
     && var s := Frontier(leaves, elems, Earlier(merges));
        var p := Last(merges);
        && p.n != p.m && Lightest(freq, s, p.n) && Lightest(freq, s - {p.n}, p.m)
        && elems + |merges| - 1 < |freq| && freq[elems + |merges| - 1] == freq[p.n] + freq[p.m])
  }

  // Leaves are symbols.
  predicate Symbols(leaves: set<nat>, elems: nat) {
    forall x | x in leaves :: x < elems
  }

  lemma {:induction false} FrontierBelow(leaves: set<nat>, elems: nat, merges: seq<Pair>)
    requires Symbols(leaves, elems)
    ensures forall x | x in Frontier(leaves, elems, merges) :: x < elems + |merges|
    decreases |merges|
  {
    if merges != [] { FrontierBelow(leaves, elems, Earlier(merges)); }
  }

  // The last merge undone: its node gives way to the two it joined.
  lemma FrontierStep(freq: seq<nat>, leaves: set<nat>, elems: nat, merges: seq<Pair>)
    requires merges != [] && GoodMerges(freq, leaves, elems, merges) && Symbols(leaves, elems)
    ensures var s := Frontier(leaves, elems, merges); var d := elems + |merges| - 1; var p := Last(merges);
            && d in s && p.n !in s && p.m !in s && p.n != p.m && p.n < d && p.m < d
            && Frontier(leaves, elems, Earlier(merges)) == s - {d} + {p.n, p.m}
  {
    FrontierBelow(leaves, elems, Earlier(merges));
  }

  lemma {:induction false} FrontierSize(freq: seq<nat>, leaves: set<nat>, elems: nat, merges: seq<Pair>)
    requires GoodMerges(freq, leaves, elems, merges) && Symbols(leaves, elems)
    ensures |merges| <= |leaves| && |Frontier(leaves, elems, merges)| + |merges| == |leaves|
    decreases |merges|
  {
    if merges != [] {
      hide Lightest;
      FrontierSize(freq, leaves, elems, Earlier(merges));
      FrontierStep(freq, leaves, elems, merges);
      SplitSize(Frontier(leaves, elems, merges), elems + |merges| - 1, Last(merges).n, Last(merges).m);
    }
  }

  lemma SplitSize(s: set<nat>, d: nat, n: nat, m: nat)
    requires d in s && n !in s && m !in s && n != m
    ensures |s - {d} + {n, m}| == |s| + 1
  {
    var r := s - {d};
    assert |r| == |s| - 1;
    assert |r + {n}| == |s|;
    assert r + {n, m} == r + {n} + {m};
  }

  // A node once merged never comes back.
  lemma {:induction false} MergedIsGone(freq: seq<nat>, leaves: set<nat>, elems: nat, merges: seq<Pair>, j: nat)
    requires GoodMerges(freq, leaves, elems, merges) && Symbols(leaves, elems) && j < |merges|
    ensures merges[j].n !in Frontier(leaves, elems, merges) && merges[j].m !in Frontier(leaves, elems, merges)
    ensures merges[j].n < elems + j && merges[j].m < elems + j
    decreases |merges|
  {
    FrontierStep(freq, leaves, elems, merges);
    if j < |merges| - 1 { MergedIsGone(freq, leaves, elems, Earlier(merges), j); }
  }

  // ------------------------------------------------------------ what merging costs

  function WeightsOver(s: set<nat>, freq: seq<nat>): multiset<nat> {
    if freq == [] then multiset{}
    else WeightsOver(s, freq[..|freq| - 1]) + if |freq| - 1 in s then multiset{freq[|freq| - 1]} else multiset{}
  }

  lemma {:induction false} WeightsAdd(s: set<nat>, freq: seq<nat>, x: nat)
    requires x !in s
    ensures WeightsOver(s + {x}, freq) == WeightsOver(s, freq) + if x < |freq| then multiset{freq[x]} else multiset{}
  {
    if freq != [] {
      var f, y := freq[..|freq| - 1], |freq| - 1;
      WeightsAdd(s, f, x);
      assert (y in s + {x}) == (y in s || y == x);
      assert x < y ==> f[x] == freq[x];
    }
  }

  lemma {:induction false} WeightFrom(s: set<nat>, freq: seq<nat>, w: nat) returns (x: nat)
    requires w in WeightsOver(s, freq)
    ensures x in s && x < |freq| && freq[x] == w
  {
    if |freq| - 1 in s && freq[|freq| - 1] == w {
      x := |freq| - 1;
    } else {
      x := WeightFrom(s, freq[..|freq| - 1], w);
    }
  }

  lemma {:induction false} WeightsNone(freq: seq<nat>)
    ensures WeightsOver({}, freq) == multiset{}
  {
    if freq != [] { WeightsNone(freq[..|freq| - 1]); }
  }

  lemma LightestIsLeast(freq: seq<nat>, s: set<nat>, n: nat)
    requires Lightest(freq, s, n)
    ensures n < |freq| && IsLeast(WeightsOver(s, freq), freq[n]) && freq[n] in WeightsOver(s, freq)
    ensures WeightsOver(s - {n}, freq) == WeightsOver(s, freq) - multiset{freq[n]}
  {
    var w := WeightsOver(s, freq);
    WeightsAdd(s - {n}, freq, n);
    assert s - {n} + {n} == s;
    forall y | y in w ensures freq[n] <= y {
      var x := WeightFrom(s, freq, y);
    }
  }

  // One merge: its node's weight is what it adds to the cost.
  lemma MergeCostOver(freq: seq<nat>, s: set<nat>, n: nat, m: nat, d: nat)
    requires Lightest(freq, s, n) && Lightest(freq, s - {n}, m) && d < |freq| && d !in s && freq[d] == freq[n] + freq[m]
    ensures MergeCost(WeightsOver(s, freq)) == freq[d] + MergeCost(WeightsOver(s - {n, m} + {d}, freq))
  {
    hide MergeCost, IsLeast, Lightest, WeightsOver;
    LightestIsLeast(freq, s, n);
    LightestIsLeast(freq, s - {n}, m);
    assert s - {n} - {m} == s - {n, m};
    WeightsAdd(s - {n, m}, freq, d);
    MergeCostIs(WeightsOver(s, freq), freq[n], freq[m]);
  }

  // The weights of the nodes made by the merges from j on.
  function MadeFrom(freq: seq<nat>, elems: nat, j: nat, k: nat): nat
    requires j <= k && elems + k <= |freq|
    decreases k - j
  {
    if j == k then 0 else freq[elems + j] + MadeFrom(freq, elems, j + 1, k)
  }

  // All merges together make nodes of exactly the least cost.
  lemma {:induction false} MadeIsLeast(freq: seq<nat>, leaves: set<nat>, elems: nat, merges: seq<Pair>, k: nat)
    requires GoodMerges(freq, leaves, elems, merges) && Symbols(leaves, elems)
    requires k == |merges| && elems + k <= |freq|
    ensures MergeCost(WeightsOver(leaves, freq)) ==
            MadeFrom(freq, elems, 0, k) + MergeCost(WeightsOver(Frontier(leaves, elems, merges), freq))
    decreases |merges|
  {
    if merges != [] {
      MadeIsLeast(freq, leaves, elems, Earlier(merges), k - 1);
      FrontierBelow(leaves, elems, Earlier(merges));
      var s, p := Frontier(leaves, elems, Earlier(merges)), Last(merges);
      MergeCostOver(freq, s, p.n, p.m, elems + k - 1);
      MadeLast(freq, elems, 0, k);
    }
  }

  lemma {:induction false} MadeLast(freq: seq<nat>, elems: nat, j: nat, k: nat)
    requires j < k && elems + k <= |freq|
    ensures MadeFrom(freq, elems, j, k) == MadeFrom(freq, elems, j, k - 1) + freq[elems + k - 1]
    decreases k - j
  {
    if j < k - 1 { MadeLast(freq, elems, j + 1, k); }
  }

  lemma OneLeft(freq: seq<nat>, s: set<nat>)
    requires |s| == 1
    ensures MergeCost(WeightsOver(s, freq)) == 0
  {
    var x :| x in s;
    assert |s - {x}| == 0;
    WeightsNone(freq);
    WeightsAdd({}, freq, x);
    assert {} + {x} == s;
  }
}
