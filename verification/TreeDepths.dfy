// How deep the merged tree is, and when the first pass of gen_bitlen
// (deps/zlib/trees.c:563-586) meets the limit: exactly when some symbol lies deeper than that.

module TreeDepths {
  import opened HuffmanMerges
  import opened TreeLengths

  // The node without a parent that x is under.
  function RootOf(elems: nat, merges: seq<Pair>, x: nat): nat
    decreases |merges|
  {
    if merges == [] then x
    else
      var r := RootOf(elems, Earlier(merges), x);
      if r == Last(merges).n || r == Last(merges).m then elems + |merges| - 1 else r
  }

  // How many nodes lie above x.
  function Depth(elems: nat, merges: seq<Pair>, x: nat): nat
    decreases |merges|
  {
    if merges == [] then 0
    else
      var r := RootOf(elems, Earlier(merges), x);
      Depth(elems, Earlier(merges), x) + (if r == Last(merges).n || r == Last(merges).m then 1 else 0)
  }

  // Some symbol lies deeper in the tree than codes may be long.
  ghost predicate TooDeep(leaves: set<nat>, elems: nat, merges: seq<Pair>, limit: nat) {
    exists x | x in leaves :: Depth(elems, merges, x) > limit
  }

  lemma {:induction false} RootInFrontier(leaves: set<nat>, elems: nat, merges: seq<Pair>, x: nat)
    requires x in leaves
    ensures RootOf(elems, merges, x) in Frontier(leaves, elems, merges)
    decreases |merges|
  {
    if merges != [] { RootInFrontier(leaves, elems, Earlier(merges), x); }
  }

  // Every node without a parent has a symbol under it.
  lemma {:induction false} LeafUnder(freq: seq<nat>, leaves: set<nat>, elems: nat, merges: seq<Pair>, r: nat) returns (x: nat)
    requires GoodMerges(freq, leaves, elems, merges) && Symbols(leaves, elems) && r in Frontier(leaves, elems, merges)
    ensures x in leaves && RootOf(elems, merges, x) == r
    decreases |merges|
  {
    if merges == [] {
      x := r;
    } else {
      FrontierStep(freq, leaves, elems, merges);
      var below := if r == elems + |merges| - 1 then Last(merges).n else r;
      x := LeafUnder(freq, leaves, elems, Earlier(merges), below);
    }
  }

  // How long the code of x would be without a limit, when the roots have the lengths in dl.
  function Unlimited(dl: seq<nat>, elems: nat, merges: seq<Pair>, x: nat): nat {
    At(dl, RootOf(elems, merges, x)) + Depth(elems, merges, x)
  }

  ghost predicate AllFit(desc: Desc, dl: seq<nat>, leaves: set<nat>, merges: seq<Pair>) {
    forall x | x in leaves :: Unlimited(dl, desc.elems, merges, x) <= desc.maxLength
  }

  // Undoing the last merge, its two nodes one deeper.
  lemma FitEarlier(desc: Desc, freq: seq<nat>, dl: seq<nat>, dl': seq<nat>, leaves: set<nat>, merges: seq<Pair>)
    requires merges != [] && GoodMerges(freq, leaves, desc.elems, merges) && Symbols(leaves, desc.elems)
    requires |dl| == |dl'|
    requires var d, p := desc.elems + |merges| - 1, Last(merges);
      && At(dl', p.n) == At(dl, d) + 1 == At(dl', p.m)
      && forall x | 0 <= x < |dl| && x != p.n && x != p.m :: dl'[x] == dl[x]
    ensures AllFit(desc, dl', leaves, Earlier(merges)) <==> AllFit(desc, dl, leaves, merges)
  {
    hide GoodMerges, Frontier;
    var e := Earlier(merges);
    forall x | x in leaves ensures Unlimited(dl', desc.elems, e, x) == Unlimited(dl, desc.elems, merges, x) {
      FrontierStep(freq, leaves, desc.elems, merges);
    }
  }

  // When the merged node is at the limit already, a symbol under it does not fit.
  lemma NotFit(desc: Desc, freq: seq<nat>, dl: seq<nat>, leaves: set<nat>, merges: seq<Pair>)
    requires merges != [] && GoodMerges(freq, leaves, desc.elems, merges) && Symbols(leaves, desc.elems)
    requires At(dl, desc.elems + |merges| - 1) + 1 > desc.maxLength
    ensures !AllFit(desc, dl, leaves, merges)
  {
    FrontierStep(freq, leaves, desc.elems, merges);
    var x := LeafUnder(freq, leaves, desc.elems, Earlier(merges), Last(merges).n);
    assert Unlimited(dl, desc.elems, merges, x) > desc.maxLength;
  }

  lemma {:induction false} OverflowGrows(desc: Desc, freq: seq<nat>, p: Pass, list: seq<nat>)
    ensures Assign(desc, freq, p, list).overflow >= p.overflow
    decreases |list|
  {
    if list != [] {
      OverflowGrows(desc, freq, SetNode(desc, freq, p, list[0]), list[1..]);
    }
  }

  // The roots are within the limit.
  predicate RootsFit(desc: Desc, dl: seq<nat>, s: set<nat>) {
    forall r | r in s :: r < |dl| && dl[r] <= desc.maxLength
  }

  lemma PairSet(desc: Desc, freq: seq<nat>, p: Pass, s: set<nat>, d: nat, n: nat, m: nat)
    requires Splits(s, p.dl, d, n, m) && RootsFit(desc, p.dl, s)
    ensures var q := SetNode(desc, freq, SetNode(desc, freq, p, m), n);
      && |q.dl| == |p.dl| && (forall x | 0 <= x < |p.dl| && x != n && x != m :: q.dl[x] == p.dl[x])
      && RootsFit(desc, q.dl, Split(s, d, n, m))
      && (p.dl[d] + 1 <= desc.maxLength ==> q.overflow == p.overflow && q.dl[n] == p.dl[d] + 1 == q.dl[m])
      && (p.dl[d] + 1 > desc.maxLength ==> q.overflow > p.overflow)
  {
    hide SetNode;
    var b := PairLengths(desc, freq, p, s, d, n, m);
  }

  // Setting the two nodes of the last merge: what is left to assign, and what it says.
  lemma AssignLast(desc: Desc, freq: seq<nat>, leaves: set<nat>, merges: seq<Pair>, p: Pass) returns (q: Pass)
    requires merges != [] && GoodMerges(freq, leaves, desc.elems, merges) && Symbols(leaves, desc.elems)
    requires Dads(p.dl, desc.elems, merges) && desc.elems + |merges| <= |p.dl|
    requires RootsFit(desc, p.dl, Frontier(leaves, desc.elems, merges))
    ensures q == SetNode(desc, freq, SetNode(desc, freq, p, Last(merges).m), Last(merges).n)
    ensures GoodMerges(freq, leaves, desc.elems, Earlier(merges)) && |q.dl| == |p.dl|
    ensures Dads(q.dl, desc.elems, Earlier(merges)) && RootsFit(desc, q.dl, Frontier(leaves, desc.elems, Earlier(merges)))
    ensures var d := desc.elems + |merges| - 1;
      if p.dl[d] + 1 <= desc.maxLength then
        q.overflow == p.overflow && (AllFit(desc, q.dl, leaves, Earlier(merges)) <==> AllFit(desc, p.dl, leaves, merges))
      else q.overflow > p.overflow && !AllFit(desc, p.dl, leaves, merges)
  {
    hide Symbols, SetNode, Lightest, Order, Assign, AllFit, RootsFit, GoodMerges, Frontier, Split;
    var s, d, pair := Frontier(leaves, desc.elems, merges), desc.elems + |merges| - 1, Last(merges);
    GoodEarlier(freq, leaves, desc.elems, merges);
    FrontierStep(freq, leaves, desc.elems, merges);
    FrontierSplit(freq, leaves, desc.elems, merges);
    LastDads(p.dl, desc.elems, merges);
    PairSet(desc, freq, p, s, d, pair.n, pair.m);
    q := SetNode(desc, freq, SetNode(desc, freq, p, pair.m), pair.n);
    DadsEarlier(freq, leaves, desc.elems, merges, p.dl, q.dl);
    if p.dl[d] + 1 <= desc.maxLength {
      FitEarlier(desc, freq, p.dl, q.dl, leaves, merges);
    } else {
      NotFit(desc, freq, p.dl, leaves, merges);
    }
  }

  lemma {:induction false} AssignDepths(desc: Desc, freq: seq<nat>, leaves: set<nat>, merges: seq<Pair>, p: Pass)
    requires GoodMerges(freq, leaves, desc.elems, merges) && Symbols(leaves, desc.elems)
    requires Dads(p.dl, desc.elems, merges) && desc.elems + |merges| <= |p.dl|
    requires RootsFit(desc, p.dl, Frontier(leaves, desc.elems, merges))
    ensures Assign(desc, freq, p, Order(merges)).overflow == 0
       <==> p.overflow == 0 && AllFit(desc, p.dl, leaves, merges)
    decreases |merges|
  {
    hide Symbols;
    if merges == [] {
      NothingAssigned(desc, freq, p);
      forall x | x in leaves ensures Unlimited(p.dl, desc.elems, merges, x) <= desc.maxLength {}
    } else {
      hide SetNode, Dads, Order, Assign, AllFit, RootsFit, GoodMerges, Frontier;
      var q := AssignLast(desc, freq, leaves, merges, p);
      AssignPair(desc, freq, p, merges);
      AssignDepths(desc, freq, leaves, Earlier(merges), q);
      OverflowGrows(desc, freq, q, Order(Earlier(merges)));
    }
  }

  lemma GoodEarlier(freq: seq<nat>, leaves: set<nat>, elems: nat, merges: seq<Pair>)
    requires merges != [] && GoodMerges(freq, leaves, elems, merges)
    ensures GoodMerges(freq, leaves, elems, Earlier(merges))
  {}

  lemma FrontierSplit(freq: seq<nat>, leaves: set<nat>, elems: nat, merges: seq<Pair>)
    requires merges != [] && GoodMerges(freq, leaves, elems, merges) && Symbols(leaves, elems)
    ensures Frontier(leaves, elems, Earlier(merges))
         == Split(Frontier(leaves, elems, merges), elems + |merges| - 1, Last(merges).n, Last(merges).m)
  {
    FrontierStep(freq, leaves, elems, merges);
  }

  // The pass over a finished tree overflows exactly when the tree is too deep.
  lemma TreeOverflow(desc: Desc, freq: seq<nat>, leaves: set<nat>, merges: seq<Pair>, p: Pass)
    requires GoodMerges(freq, leaves, desc.elems, merges) && Symbols(leaves, desc.elems) && |leaves| == |merges| + 1 >= 2
    requires desc.elems + |merges| <= |p.dl| && Dads(p.dl, desc.elems, merges)
    requires p.dl[desc.elems + |merges| - 1] == 0 && p.overflow == 0
    ensures Assign(desc, freq, p, Order(merges)).overflow == 0 <==> !TooDeep(leaves, desc.elems, merges, desc.maxLength)
  {
    hide GoodMerges, Assign, Order, Frontier, Dads, RootOf, Depth;
    OnlyRoot(freq, leaves, desc.elems, merges);
    AssignDepths(desc, freq, leaves, merges, p);
    forall x | x in leaves ensures Unlimited(p.dl, desc.elems, merges, x) == Depth(desc.elems, merges, x) {
      RootInFrontier(leaves, desc.elems, merges, x);
    }
  }
}
