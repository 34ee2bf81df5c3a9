// The heap of build_tree: pqdownheap and the ordering it restores
// (deps/zlib/trees.c:475-526). Positions count from 1, as in the source.

module HeapOrder {
  import opened HuffmanMerges
  import opened TreeCodes
  import opened TreeLengths
  import opened BitLengths

  // "smaller": by frequency, then by depth.
  predicate Le(freq: seq<nat>, dep: seq<nat>, x: nat, y: nat) {
    At(freq, x) < At(freq, y) || (At(freq, x) == At(freq, y) && At(dep, x) <= At(dep, y))
  }

  // The entry at p comes before its sons.
  predicate Father(freq: seq<nat>, dep: seq<nat>, h: seq<nat>, len: nat, p: nat)
    requires len < |h| && p < |h|
  {
    && (2 * p <= len ==> Le(freq, dep, h[p], h[2 * p]))
    && (2 * p + 1 <= len ==> Le(freq, dep, h[p], h[2 * p + 1]))
  }

  // Every entry from lo on comes before its sons.
  predicate HeapFrom(freq: seq<nat>, dep: seq<nat>, h: seq<nat>, lo: nat, len: nat) {
    1 <= lo && len < |h| && forall p | lo <= p <= len :: Father(freq, dep, h, len, p)
  }

  function Elems(h: seq<nat>, len: nat): multiset<nat>
    requires len < |h|
  {
    multiset(h[1..len + 1])
  }

  // ------------------------------------------------------------ moving down

  // In order but for the entry at k, whose sons come after its father.
  predicate Hole(freq: seq<nat>, dep: seq<nat>, a: seq<nat>, lo: nat, len: nat, k: nat) {
    && 1 <= lo <= k <= len < |a|
    && (forall p | lo <= p <= len && p != k :: Father(freq, dep, a, len, p))
    && (lo < k ==> lo <= k / 2 && (2 * k <= len ==> Le(freq, dep, a[k / 2], a[2 * k]))
                   && (2 * k + 1 <= len ==> Le(freq, dep, a[k / 2], a[2 * k + 1])))
  }

  // j is the son of k that comes first.
  predicate FirstSon(freq: seq<nat>, dep: seq<nat>, a: seq<nat>, len: nat, k: nat, j: nat)
    requires 1 <= k <= len < |a|
  {
    && j <= len && (j == 2 * k || j == 2 * k + 1)
    && (j == 2 * k ==> 2 * k + 1 <= len ==> Le(freq, dep, a[2 * k], a[2 * k + 1]))
    && (j == 2 * k + 1 ==> Le(freq, dep, a[2 * k + 1], a[2 * k]))
  }

  function Exchange(a: seq<nat>, k: nat, j: nat): (r: seq<nat>)
    requires k < |a| && j < |a|
    ensures |r| == |a|
  {
    a[k := a[j]][j := a[k]]
  }

  lemma MovedFather(freq: seq<nat>, dep: seq<nat>, a: seq<nat>, lo: nat, len: nat, k: nat, j: nat, p: nat)
    requires Hole(freq, dep, a, lo, len, k) && FirstSon(freq, dep, a, len, k, j) && !Le(freq, dep, a[k], a[j])
    requires lo <= p <= len && p != j
    ensures Father(freq, dep, Exchange(a, k, j), len, p)
  {
    if p != k {
      assert Father(freq, dep, a, len, p);
    }
  }

  lemma MoveDown(freq: seq<nat>, dep: seq<nat>, a: seq<nat>, lo: nat, len: nat, k: nat, j: nat)
    requires Hole(freq, dep, a, lo, len, k) && FirstSon(freq, dep, a, len, k, j) && !Le(freq, dep, a[k], a[j])
    ensures Hole(freq, dep, Exchange(a, k, j), lo, len, j)
  {
    forall p | lo <= p <= len && p != j ensures Father(freq, dep, Exchange(a, k, j), len, p) {
      MovedFather(freq, dep, a, lo, len, k, j, p);
    }
    assert Father(freq, dep, a, len, j);
  }

  lemma Settle(freq: seq<nat>, dep: seq<nat>, a: seq<nat>, lo: nat, len: nat, k: nat)
    requires Hole(freq, dep, a, lo, len, k) && Father(freq, dep, a, len, k)
    ensures HeapFrom(freq, dep, a, lo, len)
  {}

  lemma FirstSonSettles(freq: seq<nat>, dep: seq<nat>, a: seq<nat>, len: nat, k: nat, j: nat)
    requires 1 <= k <= len < |a| && FirstSon(freq, dep, a, len, k, j) && Le(freq, dep, a[k], a[j])
    ensures Father(freq, dep, a, len, k)
  {}

  lemma ExchangeKeeps(a: seq<nat>, len: nat, k: nat, j: nat)
    requires 1 <= k <= len < |a| && 1 <= j <= len
    ensures Elems(Exchange(a, k, j), len) == Elems(a, len)
    ensures Exchange(a, k, j)[len + 1..] == a[len + 1..]
  {
    var s := a[1..len + 1];
    assert Exchange(a, k, j)[1..len + 1] == s[k - 1 := s[j - 1]][j - 1 := s[k - 1]];
  }


  // The source's comparison.
  predicate Smaller(s: TreeBuilder, tree: array<CtData>, n: nat, m: nat): (r: bool)
    requires n < tree.Length && m < tree.Length && n < s.depth.Length && m < s.depth.Length
    reads tree, s.depth
    ensures r == Le(FreqOf(tree[..]), s.depth[..], n, m)
  {
    tree[n].fc < tree[m].fc || (tree[n].fc == tree[m].fc && s.depth[n] <= s.depth[m])
  }

  // Entries of the heap are nodes.
  ghost predicate Nodes(h: seq<nat>, len: nat, bound: nat) {
    len < |h| && forall i | 1 <= i <= len :: h[i] < bound
  }

  lemma NodesExchange(a: seq<nat>, len: nat, bound: nat, k: nat, j: nat)
    requires Nodes(a, len, bound) && 1 <= k <= len && 1 <= j <= len
    ensures Nodes(Exchange(a, k, j), len, bound)
  {}

  lemma TotalOrder(freq: seq<nat>, dep: seq<nat>, x: nat, y: nat)
    ensures Le(freq, dep, x, y) || Le(freq, dep, y, x)
  {}

  // The son of k to compare with.
  method PickSon(s: TreeBuilder, tree: array<CtData>, k: nat, len: nat, ghost a: seq<nat>) returns (j: nat)
    requires s.Sizes() && 1 <= k <= len < HEAP_SIZE && 2 * k <= len && |a| == HEAP_SIZE
    requires tree.Length <= HEAP_SIZE && Nodes(a, len, tree.Length)
    requires forall i | 0 <= i < HEAP_SIZE && i != k :: a[i] == s.heap[i]
    ensures j <= len && FirstSon(FreqOf(tree[..]), s.depth[..], a, len, k, j)
  {
    hide Le, FreqOf;
    j := 2 * k;
    if j < len {
      TotalOrder(FreqOf(tree[..]), s.depth[..], a[j + 1], a[j]);
      if Smaller(s, tree, s.heap[j + 1], s.heap[j]) { j := j + 1; }
    }
  }

  lemma NewHole(freq: seq<nat>, dep: seq<nat>, a: seq<nat>, lo: nat, len: nat)
    requires 1 <= lo <= len < |a| && HeapFrom(freq, dep, a, lo + 1, len)
    ensures Hole(freq, dep, a, lo, len, lo)
  {}

  method PqDownHeap(s: TreeBuilder, tree: array<CtData>, k0: nat)
    requires s.Sizes() && tree.Length <= HEAP_SIZE && 1 <= k0 <= s.heapLen < HEAP_SIZE
    requires HeapFrom(FreqOf(tree[..]), s.depth[..], s.heap[..], k0 + 1, s.heapLen)
    requires Nodes(s.heap[..], s.heapLen, tree.Length)
    modifies s.heap
    ensures HeapFrom(FreqOf(tree[..]), s.depth[..], s.heap[..], k0, s.heapLen)
    ensures Elems(s.heap[..], s.heapLen) == old(Elems(s.heap[..], s.heapLen)) && Nodes(s.heap[..], s.heapLen, tree.Length)
    ensures s.heap[..][s.heapLen + 1..] == old(s.heap[..][s.heapLen + 1..])
  {
    hide HeapFrom, Hole, Le, Elems, FreqOf, FirstSon, Father, Nodes;
    var k, v, len := k0, s.heap[k0], s.heapLen;
    ghost var a, freq, dep := s.heap[..], FreqOf(tree[..]), s.depth[..];
    assert s.heap[..] == s.heap[..][k := v];
    NewHole(freq, dep, a, k0, len);
    var j := 2 * k;
    ghost var settled := false;
    while j <= len
      invariant 1 <= k <= len && j == 2 * k && |a| == HEAP_SIZE && a[k] == v && s.heap[..][k := v] == a
      invariant Hole(freq, dep, a, k0, len, k) && Nodes(a, len, tree.Length)
      invariant Elems(a, len) == old(Elems(s.heap[..], len)) && a[len + 1..] == old(s.heap[..][len + 1..])
      decreases len - k
    {
      j := PickSon(s, tree, k, len, a);
      NodeAt(freq, dep, a, len, tree.Length, k, j);
      if Smaller(s, tree, v, s.heap[j]) {
        FirstSonSettles(freq, dep, a, len, k, j);
        settled := true;
        break;
      }
      MoveDown(freq, dep, a, k0, len, k, j);
      ExchangeKeeps(a, len, k, j);
      NodesExchange(a, len, tree.Length, k, j);
      s.heap[k] := s.heap[j];
      a := Exchange(a, k, j);
      k := j;
      j := 2 * k;
      assert s.heap[..][k := v] == a;
    }
    if !settled { NoSons(freq, dep, a, len, k); }
    Settle(freq, dep, a, k0, len, k);
    s.heap[k] := v;
    assert s.heap[..] == a;
  }

  lemma NodeAt(freq: seq<nat>, dep: seq<nat>, a: seq<nat>, len: nat, bound: nat, k: nat, j: nat)
    requires 1 <= k <= len && Nodes(a, len, bound) && FirstSon(freq, dep, a, len, k, j)
    ensures a[k] < bound && k < j <= len < |a| && a[j] < bound
  {}

  lemma NoSons(freq: seq<nat>, dep: seq<nat>, a: seq<nat>, len: nat, k: nat)
    requires 1 <= k <= len < |a| && len < 2 * k
    ensures Father(freq, dep, a, len, k)
  {}

  // ------------------------------------------------------------ the first entry

  lemma LeTrans(freq: seq<nat>, dep: seq<nat>, x: nat, y: nat, z: nat)
    requires Le(freq, dep, x, y) && Le(freq, dep, y, z)
    ensures Le(freq, dep, x, z)
  {}

  // The root of a heap comes before everything in it.
  lemma {:induction false} RootFirst(freq: seq<nat>, dep: seq<nat>, h: seq<nat>, len: nat, i: nat)
    requires HeapFrom(freq, dep, h, 1, len) && 1 <= i <= len
    ensures Le(freq, dep, h[1], h[i])
    decreases i
  {
    if i > 1 {
      hide Le;
      var p := i / 2;
      RootFirst(freq, dep, h, len, p);
      assert Father(freq, dep, h, len, p);
      LeTrans(freq, dep, h[1], h[p], h[i]);
    } else {
      TotalOrder(freq, dep, h[1], h[1]);
    }
  }

  // So it is a node of least frequency.
  lemma RootLightest(freq: seq<nat>, dep: seq<nat>, h: seq<nat>, len: nat, s: set<nat>)
    requires HeapFrom(freq, dep, h, 1, len) && 1 <= len && Elems(h, len) == multiset(s) && Nodes(h, len, |freq|)
    ensures Lightest(freq, s, h[1])
  {
    var r := h[1..len + 1];
    assert r[0] in multiset(r);
    forall x | x in s ensures x < |freq| && freq[h[1]] <= freq[x] {
      assert x in multiset(r);
      var i :| 0 <= i < |r| && r[i] == x;
      RootFirst(freq, dep, h, len, i + 1);
    }
  }
}
