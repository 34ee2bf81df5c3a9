// build_tree (deps/zlib/trees.c:625-704): the heap of symbols, the merging loop, and the
// lengths and codes that come of it.

module HuffmanTree {
  import opened Powers
  import opened Canonical
  import opened TreeCodes
  import opened HuffmanCost
  import opened HuffmanMerges
  import opened TreeLengths
  import opened TreeDepths
  import opened LengthLimit
  import opened BitLengths
  import opened HeapOrder
  import opened OptimalCodes

  // ------------------------------------------------------------ the merging loop

  // The heap holds the nodes without a parent, the tail of its array the merges so far.
  ghost predicate Growing(s: TreeBuilder, tree: seq<CtData>, elems: nat, leaves: set<nat>, merges: seq<Pair>)
    requires s.Sizes()
    reads s`heapLen, s`heapMax, s.heap
  {
    && 2 <= elems <= 286 && Symbols(leaves, elems) && 2 <= |leaves| && |merges| < |leaves|
    && elems + |leaves| - 1 <= |tree| <= HEAP_SIZE
    && GoodMerges(FreqOf(tree), leaves, elems, merges) && Dads(LensOf(tree), elems, merges)
    && s.heapLen == |leaves| - |merges| && s.heapMax == HEAP_SIZE - 2 * |merges|
    && Elems(s.heap[..], s.heapLen) == multiset(Frontier(leaves, elems, merges))
    && s.heap[..][s.heapMax..] == Order(merges)
  }

  ghost predicate Heaped(s: TreeBuilder, tree: seq<CtData>)
    requires s.Sizes()
    reads s`heapLen, s.heap, s.depth
  {
    HeapFrom(FreqOf(tree), s.depth[..], s.heap[..], 1, s.heapLen) && Nodes(s.heap[..], s.heapLen, |tree|)
  }

  lemma ElemsOne(h: seq<nat>, len: nat, x: nat)
    requires 1 <= len < |h|
    ensures Elems(h[1 := x], len) == Elems(h, len) - multiset{h[1]} + multiset{x}
    ensures h[1] in Elems(h, len)
  {
    var r := h[1..len + 1];
    assert h[1 := x][1..len + 1] == r[0 := x];
    assert r[0] in multiset(r);
  }

  // The last entry takes the place of the first.
  lemma ElemsShrink(h: seq<nat>, len: nat)
    requires 1 <= len < |h|
    ensures Elems(h[1 := h[len]], len - 1) == Elems(h, len) - multiset{h[1]}
  {
    var r := h[1..len + 1];
    var h' := h[1 := h[len]];
    if len == 1 {
      assert r == [h[1]];
      assert h'[1..1] == [];
    } else {
      var mid := h[2..len];
      assert r == [h[1]] + mid + [h[len]];
      assert h'[1..len] == [h[len]] + mid;
    }
  }

  lemma ShrinkHeap(freq: seq<nat>, dep: seq<nat>, h: seq<nat>, len: nat, bound: nat)
    requires HeapFrom(freq, dep, h, 1, len) && Nodes(h, len, bound) && 2 <= len
    ensures HeapFrom(freq, dep, h[1 := h[len]], 2, len - 1) && Nodes(h[1 := h[len]], len - 1, bound)
  {
    var h', less := h[1 := h[len]], len - 1;
    forall p | 2 <= p <= less ensures Father(freq, dep, h', less, p) {
      assert Father(freq, dep, h, len, p);
    }
  }

  // Removes the node of least frequency.
  method PqRemove(s: TreeBuilder, tree: array<CtData>) returns (top: nat)
    requires s.Sizes() && tree.Length <= HEAP_SIZE && 2 <= s.heapLen < HEAP_SIZE && Heaped(s, tree[..])
    modifies s`heapLen, s.heap
    ensures s.heapLen == old(s.heapLen) - 1 && Heaped(s, tree[..]) && top == old(s.heap[1])
    ensures Elems(s.heap[..], s.heapLen) == old(Elems(s.heap[..], s.heapLen)) - multiset{top}
    ensures s.heap[..][s.heapLen + 2..] == old(s.heap[..][s.heapLen + 1..])
  {
    hide HeapFrom, Elems, Nodes, FreqOf;
    ghost var h, len := s.heap[..], s.heapLen;
    top := s.heap[1];
    ShrinkHeap(FreqOf(tree[..]), s.depth[..], h, len, tree.Length);
    ElemsShrink(h, len);
    s.heap[1] := s.heap[s.heapLen];
    s.heapLen := s.heapLen - 1;
    assert s.heap[..] == h[1 := h[len]];
    ghost var h1 := s.heap[..];
    PqDownHeap(s, tree, 1);
    TailKept(h, h1, s.heap[..], len);
  }

  lemma TailKept(h: seq<nat>, h1: seq<nat>, h2: seq<nat>, len: nat)
    requires 2 <= len < |h| == |h1| == |h2| && h1 == h[1 := h[len]] && h2[len..] == h1[len..]
    ensures h2[len + 1..] == h[len + 1..]
  {
    assert h2[len..][1..] == h2[len + 1..];
    assert h1[len..][1..] == h[len + 1..];
  }

  // ------------------------------------------------------------ what a new node leaves alone

  lemma {:induction false} GoodAgree(freq: seq<nat>, freq': seq<nat>, leaves: set<nat>, elems: nat, merges: seq<Pair>)
    requires GoodMerges(freq, leaves, elems, merges) && Symbols(leaves, elems) && |freq'| == |freq|
    requires forall x | 0 <= x < elems + |merges| && x < |freq| :: freq'[x] == freq[x]
    ensures GoodMerges(freq', leaves, elems, merges)
    decreases |merges|
  {
    if merges != [] {
      GoodAgree(freq, freq', leaves, elems, Earlier(merges));
      FrontierBelow(leaves, elems, Earlier(merges));
    }
  }

  // One more merge, of the two lightest nodes.
  lemma GoodMore(freq: seq<nat>, freq': seq<nat>, leaves: set<nat>, elems: nat, merges: seq<Pair>, n: nat, m: nat)
    requires GoodMerges(freq, leaves, elems, merges) && Symbols(leaves, elems) && elems + |merges| < |freq|
    requires var s := Frontier(leaves, elems, merges); Lightest(freq, s, n) && Lightest(freq, s - {n}, m)
    requires n < |freq| && m < |freq| && freq' == freq[elems + |merges| := freq[n] + freq[m]]
    ensures n < elems + |merges| && m < elems + |merges| && n != m
    ensures GoodMerges(freq', leaves, elems, merges + [Pair(n, m)])
  {
    FrontierBelow(leaves, elems, merges);
    GoodAgree(freq, freq', leaves, elems, merges);
    assert Earlier(merges + [Pair(n, m)]) == merges;
  }

  lemma DadsMore(freq: seq<nat>, leaves: set<nat>, elems: nat, merges: seq<Pair>, dl: seq<nat>, dl': seq<nat>, n: nat, m: nat)
    requires GoodMerges(freq, leaves, elems, merges) && Symbols(leaves, elems) && Dads(dl, elems, merges)
    requires var s := Frontier(leaves, elems, merges); n in s && m in s
    requires n < |dl| && m < |dl| && dl' == dl[n := elems + |merges|][m := elems + |merges|]
    ensures Dads(dl', elems, merges + [Pair(n, m)])
  {
    var more := merges + [Pair(n, m)];
    forall j | 0 <= j < |more| ensures At(dl', more[j].n) == elems + j == At(dl', more[j].m) {
      if j < |merges| {
        MergedIsGone(freq, leaves, elems, merges, j);
        assert more[j] == merges[j];
      }
    }
  }

  lemma OrderMore(merges: seq<Pair>, n: nat, m: nat)
    ensures Order(merges + [Pair(n, m)]) == [m, n] + Order(merges)
  {
    assert Earlier(merges + [Pair(n, m)]) == merges;
  }

  // The heap below its first place does not see a new node there.
  lemma HeapAgree(freq: seq<nat>, freq': seq<nat>, dep: seq<nat>, dep': seq<nat>, h: seq<nat>, len: nat, node: nat)
    requires HeapFrom(freq, dep, h, 1, len) && Nodes(h, len, node) && |freq| == |freq'| && |dep| == |dep'|
    requires forall x | 0 <= x < node :: At(freq', x) == At(freq, x) && At(dep', x) == At(dep, x)
    ensures len >= 1 ==> HeapFrom(freq', dep', h[1 := node], 2, len)
    ensures len >= 1 ==> Nodes(h[1 := node], len, node + 1)
  {
    if len >= 1 {
      var h' := h[1 := node];
      forall p | 2 <= p <= len ensures Father(freq', dep', h', len, p) {
        assert Father(freq, dep, h, len, p);
      }
    }
  }

  lemma HeapNodes(h: seq<nat>, len: nat, s: set<nat>, bound: nat)
    requires len < |h| && Elems(h, len) == multiset(s) && forall x | x in s :: x < bound
    ensures Nodes(h, len, bound)
  {
    var r := h[1..len + 1];
    forall i | 1 <= i <= len ensures h[i] < bound {
      assert r[i - 1] in multiset(r);
    }
  }

  lemma FrontierMore(leaves: set<nat>, elems: nat, merges: seq<Pair>, n: nat, m: nat)
    requires var s := Frontier(leaves, elems, merges); n in s && m in s - {n}
    requires Symbols(leaves, elems)
    ensures var s := Frontier(leaves, elems, merges); var node: nat := elems + |merges|;
            multiset(Frontier(leaves, elems, merges + [Pair(n, m)])) == multiset(s) - multiset{n} - multiset{m} + multiset{node}
  {
    hide Frontier;
    FrontierBelow(leaves, elems, merges);
    FrontierAppend(leaves, elems, merges, n, m);
    JoinedSet(Frontier(leaves, elems, merges), n, m, elems + |merges|);
  }

  lemma FrontierAppend(leaves: set<nat>, elems: nat, merges: seq<Pair>, n: nat, m: nat)
    ensures Frontier(leaves, elems, merges + [Pair(n, m)]) == Frontier(leaves, elems, merges) - {n, m} + {elems + |merges|}
  {
    assert Earlier(merges + [Pair(n, m)]) == merges;
  }

  lemma JoinedSet(s: set<nat>, n: nat, m: nat, node: nat)
    requires n in s && m in s - {n} && node !in s
    ensures multiset(s - {n, m} + {node}) == multiset(s) - multiset{n} - multiset{m} + multiset{node}
  {
    MultisetLess(s, n);
    MultisetLess(s - {n}, m);
    assert s - {n} - {m} == s - {n, m};
    MultisetMore(s - {n, m}, node);
  }

  lemma MultisetMore(s: set<nat>, n: nat)
    requires n !in s
    ensures multiset(s + {n}) == multiset(s) + multiset{n}
  {}

  lemma MultisetLess(s: set<nat>, n: nat)
    requires n in s
    ensures multiset(s - {n}) == multiset(s) - multiset{n}
  {}

  // ------------------------------------------------------------ one merge

  // The two lightest nodes, out of the heap and onto the tail of its array; the second is
  // still in the heap's first place.
  method TakeTwo(s: TreeBuilder, tree: array<CtData>, elems: nat, ghost leaves: set<nat>, ghost merges: seq<Pair>)
    returns (n: nat, m: nat)
    requires s.Sizes() && tree.Length <= HEAP_SIZE && 2 <= s.heapLen
    requires Growing(s, tree[..], elems, leaves, merges) && Heaped(s, tree[..])
    modifies s`heapLen, s`heapMax, s.heap
    ensures var f := Frontier(leaves, elems, merges);
            Lightest(FreqOf(tree[..]), f, n) && Lightest(FreqOf(tree[..]), f - {n}, m)
    ensures s.heapLen == old(s.heapLen) - 1 && s.heapMax == old(s.heapMax) - 2 && s.heap[1] == m
    ensures Heaped(s, tree[..])
    ensures Elems(s.heap[..], s.heapLen) == multiset(Frontier(leaves, elems, merges)) - multiset{n}
    ensures s.heapMax <= HEAP_SIZE && s.heap[..][s.heapMax..] == Order(merges + [Pair(n, m)])
  {
    hide GoodMerges, Dads, Order, Frontier, HeapFrom, Nodes, Elems, FreqOf, LensOf, Lightest;
    ghost var f, freq := Frontier(leaves, elems, merges), FreqOf(tree[..]);
    FewerThan(leaves, elems);
    RootLightest(freq, s.depth[..], s.heap[..], s.heapLen, f);
    n := PqRemove(s, tree);
    LightestIn(freq, f, n);
    MultisetLess(f, n);
    RootLightest(freq, s.depth[..], s.heap[..], s.heapLen, f - {n});
    m := s.heap[1];
    ghost var h0, h1 := old(s.heap[..]), s.heap[..];
    Tails(h0, h1, s.heapLen + 1, s.heapMax);
    s.heapMax := s.heapMax - 1;
    s.heap[s.heapMax] := n;
    s.heapMax := s.heapMax - 1;
    s.heap[s.heapMax] := m;
    assert s.heap[..] == h1[s.heapMax + 1 := n][s.heapMax := m];
    AboveHeap(freq, s.depth[..], h1, s.heap[..], s.heapLen, tree.Length);
    OrderMore(merges, n, m);
    assert s.heap[..][s.heapMax..] == [m, n] + h1[s.heapMax + 2..];
  }

  lemma LightestIn(freq: seq<nat>, s: set<nat>, n: nat)
    requires Lightest(freq, s, n)
    ensures n in s && n < |freq|
  {}

  lemma Tails(h0: seq<nat>, h1: seq<nat>, len: nat, max: nat)
    requires len < max <= |h0| == |h1| && h1[len + 1..] == h0[len + 1..]
    ensures h1[max..] == h0[max..]
  {
    var k := max - len - 1;
    assert h1[len + 1..][k..] == h1[max..];
    assert h0[len + 1..][k..] == h0[max..];
  }

  // Places beyond the heap do not matter to it.
  lemma AboveHeap(freq: seq<nat>, dep: seq<nat>, h: seq<nat>, h': seq<nat>, len: nat, bound: nat)
    requires HeapFrom(freq, dep, h, 1, len) && Nodes(h, len, bound) && |h'| == |h|
    requires forall i | 0 <= i <= len :: h'[i] == h[i]
    ensures HeapFrom(freq, dep, h', 1, len) && Nodes(h', len, bound) && Elems(h', len) == Elems(h, len)
  {
    forall p | 1 <= p <= len ensures Father(freq, dep, h', len, p) {
      assert Father(freq, dep, h, len, p);
    }
    assert h'[1..len + 1] == h[1..len + 1];
  }

  // The father of the two, in the tree and in the heap's first place.
  method NewNode(s: TreeBuilder, tree: array<CtData>, node: nat, n: nat, m: nat)
    requires s.Sizes() && tree.Length <= HEAP_SIZE && n < node && m < node < tree.Length && n != m && 1 <= s.heapLen < HEAP_SIZE
    requires Heaped(s, tree[..]) && Nodes(s.heap[..], s.heapLen, node)
    modifies s.heap, s.depth, tree
    ensures FreqOf(tree[..]) == FreqOf(old(tree[..]))[node := old(tree[n].fc + tree[m].fc)]
    ensures LensOf(tree[..]) == LensOf(old(tree[..]))[n := node][m := node]
    ensures HeapFrom(FreqOf(tree[..]), s.depth[..], s.heap[..], 2, s.heapLen) && Nodes(s.heap[..], s.heapLen, node + 1)
    ensures s.heap[..] == old(s.heap[..])[1 := node]
  {
    hide HeapFrom, Nodes;
    ghost var t, dep, h := tree[..], s.depth[..], s.heap[..];
    tree[node] := tree[node].(fc := tree[n].fc + tree[m].fc);
    s.depth[node] := ((if s.depth[n] >= s.depth[m] then s.depth[n] else s.depth[m]) + 1) % 256;
    tree[n], tree[m] := tree[n].(dl := node), tree[m].(dl := node);
    s.heap[1] := node;
    HeapAgree(FreqOf(t), FreqOf(tree[..]), dep, s.depth[..], h, s.heapLen, node);
    assert s.heap[..] == h[1 := node];
  }

  // The new node sinks from the root of the heap to its place.
  method SinkNode(s: TreeBuilder, tree: array<CtData>, node: nat)
    requires s.Sizes() && node < tree.Length <= HEAP_SIZE && 1 <= s.heapLen < s.heapMax <= HEAP_SIZE
    requires HeapFrom(FreqOf(tree[..]), s.depth[..], s.heap[..], 2, s.heapLen) && Nodes(s.heap[..], s.heapLen, node + 1)
    modifies s.heap
    ensures Heaped(s, tree[..]) && Elems(s.heap[..], s.heapLen) == Elems(old(s.heap[..]), s.heapLen)
    ensures s.heap[..][s.heapMax..] == old(s.heap[..])[s.heapMax..]
  {
    hide HeapFrom, Elems, FreqOf, Nodes;
    ghost var h, len := s.heap[..], s.heapLen;
    NodesWiden(h, len, node + 1, tree.Length);
    PqDownHeap(s, tree, 1);
    Tails(h, s.heap[..], len, s.heapMax);
  }

  // Repeatedly combining the least two frequent nodes.
  method MergeOnce(s: TreeBuilder, tree: array<CtData>, elems: nat, node: nat, ghost leaves: set<nat>, ghost merges: seq<Pair>)
    returns (ghost merges': seq<Pair>)
    requires s.Sizes() && tree.Length <= HEAP_SIZE && 2 <= s.heapLen && node == elems + |merges|
    requires Growing(s, tree[..], elems, leaves, merges) && Heaped(s, tree[..])
    modifies s`heapLen, s`heapMax, s.heap, s.depth, tree
    ensures |merges'| == |merges| + 1 && Growing(s, tree[..], elems, leaves, merges') && Heaped(s, tree[..])
    ensures s.heapLen == old(s.heapLen) - 1
    ensures forall i | 0 <= i < elems :: tree[i].fc == old(tree[i].fc)
    ensures forall i | 0 <= i < elems && i !in leaves :: tree[i] == old(tree[i])
  {
    hide GoodMerges, Dads, Order, Frontier, HeapFrom, Elems, FreqOf, LensOf, Lightest, Nodes, Symbols;
    ghost var t, f := tree[..], Frontier(leaves, elems, merges);
    FewerThan(leaves, elems);
    var n, m := TakeTwo(s, tree, elems, leaves, merges);
    ghost var h, len := s.heap[..], s.heapLen;
    TwoNodes(FreqOf(t), leaves, elems, merges, n, m);
    MultisetLess(f, n);
    HeapNodes(h, len, f - {n}, node);
    NewNode(s, tree, node, n, m);
    merges' := merges + [Pair(n, m)];
    GoodMore(FreqOf(t), FreqOf(tree[..]), leaves, elems, merges, n, m);
    DadsMore(FreqOf(t), leaves, elems, merges, LensOf(t), LensOf(tree[..]), n, m);
    ElemsOne(h, len, node);
    FrontierMore(leaves, elems, merges, n, m);
    Tails(h, s.heap[..], len, s.heapMax);
    SinkNode(s, tree, node);
    LeavesKept(t, tree[..], leaves, elems, node, n, m, t[n].fc + t[m].fc);
  }

  lemma NodesWiden(h: seq<nat>, len: nat, bound: nat, bound': nat)
    requires Nodes(h, len, bound) && bound <= bound'
    ensures Nodes(h, len, bound')
  {}

  lemma TwoNodes(freq: seq<nat>, leaves: set<nat>, elems: nat, merges: seq<Pair>, n: nat, m: nat)
    requires GoodMerges(freq, leaves, elems, merges) && Symbols(leaves, elems)
    requires var s := Frontier(leaves, elems, merges); Lightest(freq, s, n) && Lightest(freq, s - {n}, m)
    ensures var s := Frontier(leaves, elems, merges); n in s && m in s && m in s - {n} && n != m && n < |freq| && m < |freq|
    ensures forall x | x in Frontier(leaves, elems, merges) :: x < elems + |merges|
    ensures (n in leaves || elems <= n) && (m in leaves || elems <= m)
  {
    FrontierBelow(leaves, elems, merges);
    FrontierKind(freq, leaves, elems, merges, n);
    FrontierKind(freq, leaves, elems, merges, m);
  }

  lemma LeavesKept(t: seq<CtData>, t': seq<CtData>, leaves: set<nat>, elems: nat, node: nat, n: nat, m: nat, f: nat)
    requires |t| == |t'| && elems <= node < |t| && n < |t| && m < |t|
    requires (n in leaves || elems <= n) && (m in leaves || elems <= m)
    requires FreqOf(t') == FreqOf(t)[node := f]
    requires LensOf(t') == LensOf(t)[n := node][m := node]
    ensures forall i | 0 <= i < elems :: t'[i].fc == t[i].fc
    ensures forall i | 0 <= i < elems && i !in leaves :: t'[i] == t[i]
  {
    forall i | 0 <= i < elems ensures t'[i].fc == t[i].fc {
      assert FreqOf(t')[i] == FreqOf(t)[i];
    }
    forall i | 0 <= i < elems && i !in leaves ensures t'[i] == t[i] {
      assert LensOf(t')[i] == LensOf(t)[i];
    }
  }

  // ------------------------------------------------------------ the heap of symbols

  // The symbols below n that occur, maxCode the greatest; the others have no code.
  ghost predicate SeededTree(tree: seq<CtData>, n: nat, leaves: set<nat>, maxCode: int) {
    && n <= |tree| <= HEAP_SIZE && n <= 286
    && (forall i | 0 <= i < n :: i in leaves <==> tree[i].fc != 0) && Symbols(leaves, n)
    && -1 <= maxCode < n && (forall x | x in leaves :: x <= maxCode) && (maxCode >= 0 ==> maxCode in leaves)
    && (forall i | 0 <= i < n && i !in leaves :: tree[i].dl == 0)
  }

  // The same, and the heap holds exactly those symbols.
  ghost predicate Seeded(s: TreeBuilder, tree: seq<CtData>, n: nat, leaves: set<nat>, maxCode: int)
    requires s.Sizes()
    reads s`heapLen, s`heapMax, s.heap
  {
    && s.heapMax == HEAP_SIZE && s.heapLen == |leaves| && s.heapLen < HEAP_SIZE
    && Elems(s.heap[..], s.heapLen) == multiset(leaves) && SeededTree(tree, n, leaves, maxCode)
  }

  lemma ElemsPush(h: seq<nat>, len: nat, x: nat)
    requires len + 1 < |h|
    ensures Elems(h[len + 1 := x], len + 1) == Elems(h, len) + multiset{x}
  {
    assert h[len + 1 := x][1..len + 2] == h[1..len + 1] + [x];
  }

  method PushSymbol(s: TreeBuilder, x: nat, ghost leaves: set<nat>)
    requires s.Sizes() && s.heapLen + 1 < HEAP_SIZE && x < HEAP_SIZE && x !in leaves
    requires s.heapLen == |leaves| && Elems(s.heap[..], s.heapLen) == multiset(leaves)
    modifies s`heapLen, s.heap, s.depth
    ensures s.heapLen == |leaves + {x}| && s.heapLen == old(s.heapLen) + 1
    ensures Elems(s.heap[..], s.heapLen) == multiset(leaves + {x})
  {
    hide Elems;
    ghost var h := s.heap[..];
    ElemsPush(h, s.heapLen, x);
    MultisetMore(leaves, x);
    s.heapLen := s.heapLen + 1;
    s.heap[s.heapLen] := x;
    s.depth[x] := 0;
    assert s.heap[..] == h[s.heapLen := x];
  }

  lemma SeedTree(t: seq<CtData>, n: nat, leaves: set<nat>, maxCode: int)
    requires n < 286 && n < |t| && SeededTree(t, n, leaves, maxCode)
    ensures n !in leaves
    ensures t[n].fc != 0 ==> SeededTree(t, n + 1, leaves + {n}, n)
    ensures t[n].fc == 0 ==> SeededTree(t[n := t[n].(dl := 0)], n + 1, leaves, maxCode)
  {
    forall i | 0 <= i < n + 1 && t[n].fc != 0 ensures i in leaves + {n} <==> t[i].fc != 0 {}
    forall i | 0 <= i < n + 1 && t[n].fc == 0 ensures i in leaves <==> t[n := t[n].(dl := 0)][i].fc != 0 {}
  }

  // Takes symbol n into the heap when it occurs; gives it no code otherwise.
  method SeedOne(s: TreeBuilder, tree: array<CtData>, n: nat, ghost leaves: set<nat>, maxCode: int)
    returns (maxCode': int, ghost leaves': set<nat>)
    requires s.Sizes() && n < 286 && n < tree.Length <= HEAP_SIZE && Seeded(s, tree[..], n, leaves, maxCode)
    modifies s`heapLen, s.heap, s.depth, tree
    ensures Seeded(s, tree[..], n + 1, leaves', maxCode')
    ensures forall i | 0 <= i < tree.Length :: tree[i].fc == old(tree[i].fc)
  {
    hide Elems, Symbols;
    ghost var t := tree[..];
    FewerThan(leaves, n);
    SeedTree(t, n, leaves, maxCode);
    maxCode', leaves' := maxCode, leaves;
    if tree[n].fc != 0 {
      PushSymbol(s, n, leaves);
      maxCode', leaves' := n, leaves + {n};
    } else {
      tree[n] := tree[n].(dl := 0);
      assert tree[..] == t[n := t[n].(dl := 0)];
    }
  }

  method InitHeap(s: TreeBuilder, tree: array<CtData>, elems: nat) returns (maxCode: int, ghost leaves: set<nat>)
    requires s.Sizes() && elems <= 286 && elems <= tree.Length <= HEAP_SIZE
    modifies s`heapLen, s`heapMax, s.heap, s.depth, tree
    ensures Seeded(s, tree[..], elems, leaves, maxCode) && FreqOf(tree[..]) == FreqOf(old(tree[..]))
  {
    hide Elems;
    s.heapLen, s.heapMax := 0, HEAP_SIZE;
    maxCode, leaves := -1, {};
    NoElems(s.heap[..]);
    var n := 0;
    while n < elems
      invariant 0 <= n <= elems && Seeded(s, tree[..], n, leaves, maxCode)
      invariant forall i | 0 <= i < tree.Length :: tree[i].fc == old(tree[i].fc)
    {
      maxCode, leaves := SeedOne(s, tree, n, leaves, maxCode);
      n := n + 1;
    }
  }

  lemma NoElems(h: seq<nat>)
    requires |h| >= 1
    ensures Elems(h, 0) == multiset({})
  {
    assert h[1..1] == [];
  }

  // Makes one more symbol occur, once.
  method ForceOne(s: TreeBuilder, tree: array<CtData>, desc: Desc, maxCode: int, ghost leaves: set<nat>)
    returns (maxCode': int, node: nat)
    requires s.Sizes() && 3 <= desc.elems && s.heapLen < 2 && Seeded(s, tree[..], desc.elems, leaves, maxCode)
    modifies s`heapLen, s.heap, s.depth, tree
    ensures node !in leaves && node <= 2 && node < desc.elems && Seeded(s, tree[..], desc.elems, leaves + {node}, maxCode')
    ensures s.heapLen == old(s.heapLen) + 1 && FreqOf(tree[..]) == FreqOf(old(tree[..]))[node := 1]
  {
    hide Elems;
    TwoMembers(leaves, 0, maxCode);
    maxCode' := maxCode;
    if maxCode < 2 { maxCode' := maxCode + 1; node := maxCode'; } else { node := 0; }
    ghost var t := tree[..];
    PushSymbol(s, node, leaves);
    tree[node] := tree[node].(fc := 1);
    assert tree[..] == t[node := t[node].(fc := 1)];
  }

  // The forced symbols are among the first three, did not occur, and are not the same.
  predicate FewForced(freq: seq<nat>, forced: seq<nat>) {
    && (forall i | 0 <= i < |forced| :: forced[i] <= 2 && forced[i] < |freq| && freq[forced[i]] == 0)
    && forall i, j | 0 <= i < j < |forced| :: forced[i] != forced[j]
  }

  lemma FewMore(freq: seq<nat>, forced: seq<nat>, node: nat)
    requires FewForced(freq, forced) && node <= 2 && node < |freq| && Forced(freq, forced)[node] == 0
    ensures FewForced(freq, [node] + forced)
  {
    ForcedOnce(freq, forced, node);
    var f := [node] + forced;
    forall i, j | 0 <= i < j < |f| ensures f[i] != f[j] {
      assert f[j] == forced[j - 1];
      if i > 0 { assert f[i] == forced[i - 1]; }
    }
  }

  lemma {:induction false} ForcedOnce(freq: seq<nat>, forced: seq<nat>, x: nat)
    requires x < |freq| && Forced(freq, forced)[x] == 0
    ensures freq[x] == 0 && x !in forced
    decreases |forced|
  {
    if forced != [] { ForcedOnce(freq, forced[1..], x); }
  }

  lemma TwoMembers(s: set<nat>, a: nat, b: int)
    ensures a in s && b in s && a != b ==> |s| >= 2
  {
    if a in s && b in s && a != b {
      assert b in s - {a};
      assert |s - {a}| >= 1;
    }
  }

  // At least two symbols are made to occur.
  method ForceTwo(s: TreeBuilder, tree: array<CtData>, desc: Desc, maxCode0: int, ghost leaves0: set<nat>)
    returns (maxCode: int, ghost leaves: set<nat>, ghost forced: seq<nat>)
    requires s.Sizes() && 3 <= desc.elems && (desc.staticLens == [] || desc.elems <= |desc.staticLens|)
    requires Seeded(s, tree[..], desc.elems, leaves0, maxCode0)
    modifies s`heapLen, s`optLen, s`staticLen, s.heap, s.depth, tree
    ensures Seeded(s, tree[..], desc.elems, leaves, maxCode) && 2 <= |leaves|
    ensures FreqOf(tree[..]) == Forced(FreqOf(old(tree[..])), forced)
    ensures |forced| == (if |leaves0| < 2 then 2 - |leaves0| else 0) && FewForced(FreqOf(old(tree[..])), forced)
    ensures s.optLen == old(s.optLen) - |forced| && s.staticLen == old(s.staticLen) - StaticSum(desc, forced)
  {
    hide Elems, FreqOf, FewForced;
    NoneForced(FreqOf(tree[..]));
    maxCode, leaves, forced := maxCode0, leaves0, [];
    while s.heapLen < 2
      invariant Seeded(s, tree[..], desc.elems, leaves, maxCode)
      invariant FreqOf(tree[..]) == Forced(FreqOf(old(tree[..])), forced) && FewForced(FreqOf(old(tree[..])), forced)
      invariant |forced| + |leaves0| == |leaves| && (|leaves0| < 2 ==> |leaves| <= 2) && (|leaves0| >= 2 ==> forced == [])
      invariant s.optLen == old(s.optLen) - |forced| && s.staticLen == old(s.staticLen) - StaticSum(desc, forced)
      decreases 2 - s.heapLen
    {
      var node;
      maxCode, node := ForceOne(s, tree, desc, maxCode, leaves);
      s.optLen := s.optLen - 1;
      if desc.staticLens != [] { s.staticLen := s.staticLen - desc.staticLens[node]; }
      leaves := leaves + {node};
      ForcedMore(FreqOf(old(tree[..])), forced, node, desc);
      FewMore(FreqOf(old(tree[..])), forced, node);
      forced := [node] + forced;
    }
  }

  lemma NoneForced(freq: seq<nat>)
    ensures FewForced(freq, [])
  {}

  lemma ForcedMore(freq: seq<nat>, forced: seq<nat>, node: nat, desc: Desc)
    requires node < |freq|
    ensures Forced(freq, [node] + forced) == Forced(freq, forced)[node := 1]
    ensures StaticSum(desc, [node] + forced) == StaticOf(desc, node) + StaticSum(desc, forced)
  {
    assert ([node] + forced)[1..] == forced;
  }

  // The frequencies with those of the forced symbols set to 1.
  function Forced(freq: seq<nat>, forced: seq<nat>): (f: seq<nat>)
    ensures |f| == |freq|
    decreases |forced|
  {
    if forced == [] then freq
    else
      var f := Forced(freq, forced[1..]);
      if forced[0] < |f| then f[forced[0] := 1] else f
  }

  function StaticSum(desc: Desc, forced: seq<nat>): int {
    if forced == [] then 0 else StaticOf(desc, forced[0]) + StaticSum(desc, forced[1..])
  }

  // ------------------------------------------------------------ the whole construction

  // The symbols that occur.
  ghost function Occurring(freq: seq<nat>, n: nat): set<nat>
    requires n <= |freq|
  {
    set i | 0 <= i < n && freq[i] != 0
  }

  // Sub-heaps from the last father up.
  method Heapify(s: TreeBuilder, tree: array<CtData>)
    requires s.Sizes() && tree.Length <= HEAP_SIZE && 2 <= s.heapLen < HEAP_SIZE && Nodes(s.heap[..], s.heapLen, tree.Length)
    modifies s.heap
    ensures Heaped(s, tree[..]) && Elems(s.heap[..], s.heapLen) == old(Elems(s.heap[..], s.heapLen))
  {
    hide HeapFrom, Elems, Nodes, FreqOf;
    var n := s.heapLen / 2;
    NoFathers(FreqOf(tree[..]), s.depth[..], s.heap[..], s.heapLen, n + 1);
    while n >= 1
      invariant 0 <= n <= s.heapLen / 2 && HeapFrom(FreqOf(tree[..]), s.depth[..], s.heap[..], n + 1, s.heapLen)
      invariant Nodes(s.heap[..], s.heapLen, tree.Length)
      invariant Elems(s.heap[..], s.heapLen) == old(Elems(s.heap[..], s.heapLen))
    {
      PqDownHeap(s, tree, n);
      n := n - 1;
    }
  }

  lemma NoFathers(freq: seq<nat>, dep: seq<nat>, h: seq<nat>, len: nat, lo: nat)
    requires 1 <= lo && len < 2 * lo && len < |h|
    ensures HeapFrom(freq, dep, h, lo, len)
  {}

  // The heap of all symbols is where the merging starts.
  method StartHeap(s: TreeBuilder, tree: array<CtData>, desc: Desc, maxCode: int, ghost leaves: set<nat>)
    requires s.Sizes() && ValidDesc(desc) && 2 * desc.elems - 1 <= tree.Length <= HEAP_SIZE && 2 <= |leaves|
    requires Seeded(s, tree[..], desc.elems, leaves, maxCode)
    modifies s.heap
    ensures Growing(s, tree[..], desc.elems, leaves, []) && Heaped(s, tree[..])
  {
    hide GoodMerges, Dads, Order, HeapFrom, Elems, FreqOf, LensOf, Nodes, Pow2;
    FewerThan(leaves, desc.elems);
    HeapNodes(s.heap[..], s.heapLen, leaves, tree.Length);
    Heapify(s, tree);
    NothingMerged(FreqOf(tree[..]), LensOf(tree[..]), leaves, desc.elems);
    assert s.heap[..][HEAP_SIZE..] == [];
  }

  // What is left in the heap is the root; it ends the list.
  method PlaceRoot(s: TreeBuilder, tree: array<CtData>, elems: nat, ghost leaves: set<nat>, ghost merges: seq<Pair>)
    requires s.Sizes() && Growing(s, tree[..], elems, leaves, merges) && s.heapLen == 1
    modifies s`heapMax, s.heap
    ensures s.heapMax < HEAP_SIZE && s.heap[s.heapMax..] == [elems + |merges| - 1] + Order(merges)
  {
    hide GoodMerges, Dads, Order, Elems, FreqOf, LensOf, Frontier;
    FewerThan(leaves, elems);
    OnlyRoot(FreqOf(tree[..]), leaves, elems, merges);
    LastElem(s.heap[..], elems + |merges| - 1);
    ghost var h := s.heap[..];
    s.heapMax := s.heapMax - 1;
    s.heap[s.heapMax] := s.heap[1];
    assert s.heap[s.heapMax..] == [h[1]] + h[s.heapMax + 1..];
  }

  method Grow(s: TreeBuilder, tree: array<CtData>, desc: Desc, maxCode: int, ghost leaves: set<nat>) returns (ghost merges: seq<Pair>)
    requires s.Sizes() && ValidDesc(desc) && 2 * desc.elems - 1 <= tree.Length <= HEAP_SIZE && 2 <= |leaves|
    requires Seeded(s, tree[..], desc.elems, leaves, maxCode)
    modifies s`heapLen, s`heapMax, s.heap, s.depth, tree
    ensures s.heapMax < HEAP_SIZE
    ensures Grown(desc, FreqOf(tree[..]), leaves, merges, maxCode, LensOf(tree[..]), s.heap[s.heapMax..])
    ensures forall i | 0 <= i < desc.elems :: tree[i].fc == old(tree[i].fc)
    ensures forall i | 0 <= i < desc.elems && i !in leaves :: tree[i] == old(tree[i])
  {
    hide GoodMerges, Dads, Order, HeapFrom, Elems, FreqOf, LensOf, Nodes, Pow2, Frontier;
    var elems := desc.elems;
    StartHeap(s, tree, desc, maxCode, leaves);
    merges := MergeOnce(s, tree, elems, elems, leaves, []);
    var node := elems + 1;
    while s.heapLen >= 2
      invariant Growing(s, tree[..], elems, leaves, merges) && Heaped(s, tree[..]) && node == elems + |merges|
      invariant merges != [] && s.heapLen >= 1
      invariant forall i | 0 <= i < elems :: tree[i].fc == old(tree[i].fc)
      invariant forall i | 0 <= i < elems && i !in leaves :: tree[i] == old(tree[i])
      decreases s.heapLen
    {
      merges := MergeOnce(s, tree, elems, node, leaves, merges);
      node := node + 1;
    }
    PlaceRoot(s, tree, elems, leaves, merges);
  }

  lemma NothingMerged(freq: seq<nat>, dl: seq<nat>, leaves: set<nat>, elems: nat)
    ensures GoodMerges(freq, leaves, elems, []) && Dads(dl, elems, []) && Order([]) == [] && Frontier(leaves, elems, []) == leaves
  {}

  lemma LastElem(h: seq<nat>, x: nat)
    requires 2 <= |h| && Elems(h, 1) == multiset({x})
    ensures h[1] == x
  {
    assert h[1..2] == [h[1]];
    assert h[1] in multiset([h[1]]);
  }

  // What building a tree leaves behind, for the symbols up to maxCode: lengths within the
  // limit that fill the code space, for exactly the symbols that occur, each with its
  // canonical code; rarer symbols have the longer words. When no symbol is too deep in the
  // merged tree, no code is cheaper; otherwise some length is at the limit.
  ghost predicate Built(desc: Desc, tree: seq<CtData>, freq: seq<nat>, lens: seq<bitlen>, maxCode: int, tooDeep: bool) {
    && |freq| == |lens| == maxCode + 1 <= desc.elems <= |tree|
    && (forall i | 0 <= i < |lens| :: lens[i] == tree[i].dl && lens[i] <= desc.maxLength && (lens[i] > 0 <==> freq[i] > 0))
    && (forall i | maxCode < i < desc.elems :: tree[i].fc == 0 && tree[i].dl == 0)
    && Kraft(lens) == Pow2(15)
    && (forall i | 0 <= i < |lens| && lens[i] > 0 :: tree[i].fc == Huff(lens, i))
    && RarerLens(freq, lens)
    && (if tooDeep then exists i | 0 <= i < |lens| :: lens[i] == desc.maxLength else Cheapest(freq, lens))
  }

  // The tree of the symbols that occur: every merge takes the two lightest nodes there are,
  // until one is left.
  ghost predicate Merged(desc: Desc, freq: seq<nat>, weights: seq<nat>, merges: seq<Pair>) {
    && desc.elems <= |freq| && desc.elems <= |weights| && weights[..desc.elems] == freq[..desc.elems]
    && var leaves := Occurring(freq, desc.elems);
       GoodMerges(weights, leaves, desc.elems, merges) && |leaves| == |merges| + 1
  }

  // Some symbol that occurs lies deeper in that tree than the limit.
  ghost predicate OverLimit(desc: Desc, freq: seq<nat>, merges: seq<Pair>)
    requires desc.elems <= |freq|
  {
    TooDeep(Occurring(freq, desc.elems), desc.elems, merges, desc.maxLength)
  }

  lemma FifteenBits()
    ensures Pow2(15) == 32768
  {
    assert Pow2(8) == 256;
  }

  // What gen_bitlen settled, in terms of the lengths.
  lemma SettledCode(desc: Desc, freq: seq<nat>, dl: seq<nat>, counts: seq<nat>, opt: int, stat: int, opt0: int, stat0: int,
                    leaves: set<nat>, limited: bool, maxCode: nat) returns (lens: seq<bitlen>)
    requires Settled(desc, freq, dl, counts, opt, stat, opt0, stat0, leaves, limited)
    requires maxCode < desc.elems <= |dl| == |freq| && leaves != {} && (forall x | x in leaves :: x <= maxCode)
    requires forall i | 0 <= i <= maxCode :: i in leaves <==> freq[i] > 0
    requires forall i | 0 <= i <= maxCode && i !in leaves :: dl[i] == 0
    requires limited ==> RarerLonger(freq, dl, leaves)
    ensures |lens| == maxCode + 1 && RarerLens(freq[..maxCode + 1], lens)
    ensures CodeOf(lens, dl, freq, leaves) && |lens| == maxCode + 1 && forall i | 0 <= i < |lens| :: lens[i] <= desc.maxLength
    ensures Kraft(lens) == Pow2(15) && counts[0] == 0 && |counts| == 16 && forall l | 1 <= l <= 15 :: counts[l] == Count(lens, |lens|, l)
    ensures opt == opt0 + BillTotal(desc, freq[..|lens|], lens, |lens|)
    ensures stat == stat0 + StaticTotal(desc, freq[..|lens|], |lens|)
    ensures if limited then exists i | 0 <= i < |lens| :: lens[i] == desc.maxLength else Cheapest(freq[..|lens|], lens)
  {
    hide Over, MergeCost, WeightsOver, Cheapest, BillTotal, StaticTotal, Below, Count, Bill, StaticBill;
    var n := maxCode + 1;
    forall i | 0 <= i <= maxCode ensures dl[i] <= desc.maxLength {}
    lens := seq(n, i requires 0 <= i < n => dl[i]);
    OverZero(leaves, Leaves(desc, dl, 0));
    OverPrefix(leaves, Spaces(dl, desc.maxLength), n);
    KraftOver(lens, dl, freq, leaves, desc.maxLength, n);
    OverPrefix(leaves, Bills(desc, freq, dl), n);
    OverPrefix(leaves, StaticBills(desc, freq, |dl|), n);
    BillOver(desc, lens, dl, freq, leaves, n);
    FifteenBits();
    forall l | 1 <= l <= 15 ensures counts[l] == Count(lens, |lens|, l) {
      OverPrefix(leaves, Leaves(desc, dl, l), n);
      CountOver(desc, lens, dl, freq, leaves, l, n);
    }
    if limited {
      var x := OverPositive(leaves, Leaves(desc, dl, desc.maxLength));
      assert lens[x] == desc.maxLength;
      LimitedRarer(lens, dl, freq, leaves);
    } else {
      CheapestCode(lens, dl, freq, leaves);
      CheapestRarerLens(lens, dl, freq, leaves);
    }
  }

  lemma LimitedRarer(lens: seq<bitlen>, dl: seq<nat>, freq: seq<nat>, leaves: set<nat>)
    requires CodeOf(lens, dl, freq, leaves) && RarerLonger(freq, dl, leaves)
    ensures RarerLens(freq[..|lens|], lens)
  {
    var f := freq[..|lens|];
    forall x, y | 0 <= x < |lens| && 0 <= y < |lens| && 0 < f[x] < f[y] ensures lens[y] <= lens[x] {
      assert At(freq, x) < At(freq, y);
    }
  }

  lemma SeededAre(s: TreeBuilder, tree: seq<CtData>, n: nat, leaves: set<nat>, maxCode: int, freq: seq<nat>)
    requires s.Sizes() && Seeded(s, tree, n, leaves, maxCode) && FreqOf(tree) == freq
    ensures n <= |freq| && leaves == Occurring(freq, n)
  {}

  // The symbols below elems: leaves occur, the others have length 0.
  ghost predicate SymbolsAre(tree: seq<CtData>, elems: nat, leaves: set<nat>) {
    && elems <= |tree| && (forall i | 0 <= i < elems :: i in leaves <==> tree[i].fc > 0)
    && (forall i | 0 <= i < elems && i !in leaves :: tree[i].dl == 0)
  }

  lemma SeededSymbols(s: TreeBuilder, tree: seq<CtData>, n: nat, leaves: set<nat>, maxCode: int)
    requires s.Sizes() && Seeded(s, tree, n, leaves, maxCode) && 2 <= |leaves|
    ensures SymbolsAre(tree, n, leaves) && leaves != {} && 0 <= maxCode < n && forall x | x in leaves :: x <= maxCode
  {
    assert leaves != {};
    var x :| x in leaves;
  }

  lemma GrownSymbols(t1: seq<CtData>, t2: seq<CtData>, t3: seq<CtData>, elems: nat, leaves: set<nat>)
    requires SymbolsAre(t1, elems, leaves) && |t1| == |t2| == |t3|
    requires forall i | 0 <= i < elems :: t2[i].fc == t1[i].fc
    requires forall i | 0 <= i < elems && i !in leaves :: t2[i] == t1[i]
    requires FreqOf(t3) == FreqOf(t2)
    requires forall i | 0 <= i < elems && i !in leaves :: At(LensOf(t3), i) == At(LensOf(t2), i)
    ensures SymbolsAre(t3, elems, leaves) && FreqOf(t3)[..elems] == FreqOf(t1)[..elems]
  {
    forall i | 0 <= i < elems ensures t3[i].fc == t1[i].fc {
      assert FreqOf(t3)[i] == FreqOf(t2)[i];
    }
    forall i | 0 <= i < elems && i !in leaves ensures t3[i].dl == 0 {
      assert LensOf(t3)[i] == LensOf(t2)[i];
    }
  }

  lemma NoneAbove(t1: seq<CtData>, t3: seq<CtData>, elems: nat, leaves: set<nat>, maxCode: int)
    requires SymbolsAre(t3, elems, leaves) && elems <= |t1| && FreqOf(t3)[..elems] == FreqOf(t1)[..elems]
    requires forall x | x in leaves :: x <= maxCode
    ensures forall i | maxCode < i < elems && 0 <= i :: FreqOf(t1)[i] == 0
  {
    forall i | maxCode < i < elems && 0 <= i ensures FreqOf(t1)[i] == 0 {
      assert FreqOf(t3)[..elems][i] == FreqOf(t1)[..elems][i];
    }
  }

  // What GenCodes needs.
  lemma SymbolCodes(tree: seq<CtData>, elems: nat, leaves: set<nat>, maxCode: nat)
    requires SymbolsAre(tree, elems, leaves) && maxCode < elems
    ensures forall i | 0 <= i <= maxCode :: i in leaves <==> FreqOf(tree)[i] > 0
    ensures forall i | 0 <= i <= maxCode && i !in leaves :: LensOf(tree)[i] == 0
  {}

  lemma CodesBuilt(desc: Desc, t3: seq<CtData>, t4: seq<CtData>, freq: seq<nat>, lens: seq<bitlen>, leaves: set<nat>, maxCode: nat, limited: bool)
    requires SymbolsAre(t3, desc.elems, leaves) && maxCode < desc.elems && |t4| == |t3| && freq == FreqOf(t3)[..maxCode + 1]
    requires CodeOf(lens, LensOf(t3), FreqOf(t3), leaves) && |lens| == maxCode + 1
    requires forall i | 0 <= i < |lens| :: lens[i] <= desc.maxLength
    requires Kraft(lens) == Pow2(15)
    requires if limited then exists i | 0 <= i < |lens| :: lens[i] == desc.maxLength else Cheapest(freq, lens)
    requires RarerLens(freq, lens)
    requires forall i | 0 <= i < |t4| && !Coded(lens, i) :: t4[i] == t3[i]
    requires forall i | 0 <= i < |t4| && Coded(lens, i) :: t4[i] == CtData(Huff(lens, i), lens[i])
    ensures Built(desc, t4, freq, lens, maxCode, limited)
  {
    hide Cheapest, Kraft, Huff, Pow2;
    forall i | 0 <= i < |lens| ensures lens[i] == t4[i].dl && (lens[i] > 0 <==> freq[i] > 0) {
      assert LensOf(t3)[i] == t3[i].dl && FreqOf(t3)[i] == freq[i];
    }
  }

  lemma GrownMerged(s: TreeBuilder, t1: seq<CtData>, t2: seq<CtData>, desc: Desc, leaves: set<nat>, merges: seq<Pair>, maxCode: int)
    requires s.Sizes() && s.heapMax < HEAP_SIZE && Grown(desc, FreqOf(t2), leaves, merges, maxCode, LensOf(t2), s.heap[s.heapMax..])
    requires |t1| == |t2| && desc.elems <= |t1| && leaves == Occurring(FreqOf(t1), desc.elems)
    requires forall i | 0 <= i < desc.elems :: t2[i].fc == t1[i].fc
    ensures Merged(desc, FreqOf(t1), FreqOf(t2), merges)
    ensures OverLimit(desc, FreqOf(t1), merges) == TooDeep(leaves, desc.elems, merges, desc.maxLength)
  {
    hide GoodMerges, Occurring, TooDeep;
    assert FreqOf(t2)[..desc.elems] == FreqOf(t1)[..desc.elems];
  }

  // Constructs one tree and updates the bit totals of the block.
  method BuildTree(s: TreeBuilder, tree: array<CtData>, desc: Desc)
    returns (maxCode: int, ghost lens: seq<bitlen>, ghost freq: seq<nat>, ghost forced: seq<nat>,
             ghost weights: seq<nat>, ghost merges: seq<Pair>)
    requires s.Sizes() && ValidDesc(desc) && 3 <= desc.elems && 2 * desc.elems - 1 <= tree.Length <= HEAP_SIZE
    modifies s, s.heap, s.depth, s.blCount, tree
    ensures 0 <= maxCode < desc.elems && |lens| == maxCode + 1
    ensures freq == Forced(FreqOf(old(tree[..])), forced)[..maxCode + 1]
    ensures forall i | maxCode < i < desc.elems :: Forced(FreqOf(old(tree[..])), forced)[i] == 0
    ensures var n := |Occurring(FreqOf(old(tree[..])), desc.elems)|; |forced| == if n < 2 then 2 - n else 0
    ensures FewForced(FreqOf(old(tree[..])), forced)
    ensures Merged(desc, Forced(FreqOf(old(tree[..])), forced), weights, merges)
    ensures Built(desc, tree[..], freq, lens, maxCode, OverLimit(desc, Forced(FreqOf(old(tree[..])), forced), merges))
    ensures s.optLen == old(s.optLen) - |forced| + BillTotal(desc, freq, lens, maxCode + 1)
    ensures s.staticLen == old(s.staticLen) - StaticSum(desc, forced) + StaticTotal(desc, freq, maxCode + 1)
  {
    hide Seeded, Grown, Settled, FreqOf, LensOf, Forced, Cheapest, Kraft, Count, Pow2, BillTotal, StaticTotal, StaticSum, Huff, CodeOf,
         Occurring, SymbolsAre, Built, Merged, OverLimit, GoodMerges, TooDeep, FewForced;
    ghost var freq0 := FreqOf(tree[..]);
    ghost var leaves, limited;
    maxCode, leaves := InitHeap(s, tree, desc.elems);
    SeededAre(s, tree[..], desc.elems, leaves, maxCode, freq0);
    maxCode, leaves, forced := ForceTwo(s, tree, desc, maxCode, leaves);
    ghost var t1 := tree[..];
    SeededSymbols(s, t1, desc.elems, leaves, maxCode);
    SeededAre(s, t1, desc.elems, leaves, maxCode, FreqOf(t1));
    merges := Grow(s, tree, desc, maxCode, leaves);
    ghost var t2, opt0, stat0 := tree[..], s.optLen, s.staticLen;
    weights := FreqOf(t2);
    GrownMerged(s, t1, t2, desc, leaves, merges, maxCode);
    limited := GenBitlen(s, tree, desc, maxCode, FreqOf(t2), leaves, merges);
    ghost var t3 := tree[..];
    GrownSymbols(t1, t2, t3, desc.elems, leaves);
    NoneAbove(t1, t3, desc.elems, leaves, maxCode);
    SymbolCodes(t3, desc.elems, leaves, maxCode);
    lens := SettledCode(desc, FreqOf(t3), LensOf(t3), s.blCount[..], s.optLen, s.staticLen, opt0, stat0, leaves, limited, maxCode);
    freq := FreqOf(t3)[..maxCode + 1];
    CodeLens(t3, lens, leaves);
    GenCodes(tree, maxCode, s.blCount, lens);
    CodesBuilt(desc, t3, tree[..], freq, lens, leaves, maxCode, limited);
    assert FreqOf(t3)[..desc.elems][..maxCode + 1] == freq;
    assert FreqOf(t1)[..desc.elems][..maxCode + 1] == FreqOf(t1)[..maxCode + 1];
  }

  lemma CodeLens(tree: seq<CtData>, lens: seq<bitlen>, leaves: set<nat>)
    requires CodeOf(lens, LensOf(tree), FreqOf(tree), leaves)
    ensures |lens| <= |tree| && forall i | 0 <= i < |lens| :: lens[i] == tree[i].dl
  {
    forall i | 0 <= i < |lens| ensures lens[i] == tree[i].dl {
      assert LensOf(tree)[i] == lens[i];
    }
  }
}
