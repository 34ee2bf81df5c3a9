// gen_bitlen (deps/zlib/trees.c:538-611): optimal lengths from the merged tree, repaired
// when some exceed the limit, with the block's bit totals kept up to date.

module BitLengths {
  import opened Powers
  import opened HuffmanCost
  import opened HuffmanMerges
  import opened TreeCodes
  import opened TreeLengths
  import opened TreeDepths
  import opened LengthLimit

  const HEAP_SIZE := 573

  predicate ValidDesc(desc: Desc) {
    && 2 <= desc.elems <= 286 && 1 <= desc.maxLength <= 15 && desc.elems <= Pow2(desc.maxLength)
    && desc.elems <= desc.extraBase + |desc.extraBits|
    && (desc.staticLens == [] || desc.elems <= |desc.staticLens|)
  }

  function FreqOf(tree: seq<CtData>): (freq: seq<nat>)
    ensures |freq| == |tree| && forall i | 0 <= i < |tree| :: freq[i] == tree[i].fc
  {
    seq(|tree|, i requires 0 <= i < |tree| => tree[i].fc)
  }

  // The parts of deflate_state that building a tree uses.
  class TreeBuilder {
    const heap: array<nat>
    const depth: array<nat>
    const blCount: array<nat>
    var heapLen: nat
    var heapMax: nat
    var optLen: int
    var staticLen: int

    constructor ()
      ensures Sizes() && fresh(heap) && fresh(depth) && fresh(blCount) && optLen == 0 && staticLen == 0
    {
      heap := new nat[HEAP_SIZE](_ => 0);
      depth := new nat[HEAP_SIZE](_ => 0);
      blCount := new nat[16](_ => 0);
      heapLen, heapMax, optLen, staticLen := 0, HEAP_SIZE, 0, 0;
    }

    predicate Sizes() {
      heap.Length == depth.Length == HEAP_SIZE && blCount.Length == 16 && heap != depth && heap != blCount && depth != blCount
    }
  }

  // A finished tree: the merges that made it, as the heap, the parents and the
  // frequencies hold them.
  ghost predicate Grown(desc: Desc, freq: seq<nat>, leaves: set<nat>, merges: seq<Pair>, maxCode: int, dl: seq<nat>, list: seq<nat>) {
    && ValidDesc(desc) && Symbols(leaves, desc.elems) && GoodMerges(freq, leaves, desc.elems, merges)
    && |leaves| == |merges| + 1 >= 2 && maxCode < desc.elems && (forall x | x in leaves :: x <= maxCode)
    && |freq| == |dl| && desc.elems + |merges| <= |dl| && Dads(dl, desc.elems, merges)
    && list == [desc.elems + |merges| - 1] + Order(merges)
  }

  // Where an entry of the list stands before the pass reaches it.
  lemma ListEntry(desc: Desc, freq: seq<nat>, leaves: set<nat>, merges: seq<Pair>, maxCode: int, dl: seq<nat>, list: seq<nat>,
                  p0: Pass, i: nat)
    requires Grown(desc, freq, leaves, merges, maxCode, dl, list) && p0.dl == dl[list[0] := 0] && i < 2 * |merges|
    ensures |list| == 2 * |merges| + 1
    ensures var n := list[i + 1]; var p := Assign(desc, freq, p0, Order(merges)[..i]);
            && n < |dl| && n == Order(merges)[i] && (n <= maxCode <==> n < desc.elems)
            && At(p.dl, n) < |dl| && At(p.dl, n) != n
  {
    hide GoodMerges, Assign, Order;
    var order := Order(merges);
    var n := order[i];
    OrderHas(merges, n);
    var j :| 0 <= j < |merges| && (n == merges[j].n || n == merges[j].m);
    MergedIsGone(freq, leaves, desc.elems, merges, j);
    OrderOnce(freq, leaves, desc.elems, merges);
    assert n !in order[..i];
    AssignKeeps(desc, freq, p0, order[..i], n);
    MergedLeaf(freq, leaves, desc.elems, merges, j);
  }

  // What is merged was a leaf or made by an earlier merge.
  lemma {:induction false} FrontierKind(freq: seq<nat>, leaves: set<nat>, elems: nat, merges: seq<Pair>, x: nat)
    requires GoodMerges(freq, leaves, elems, merges) && x in Frontier(leaves, elems, merges)
    ensures x in leaves || elems <= x
    decreases |merges|
  {
    if merges != [] && x != elems + |merges| - 1 { FrontierKind(freq, leaves, elems, Earlier(merges), x); }
  }

  lemma {:induction false} MergedLeaf(freq: seq<nat>, leaves: set<nat>, elems: nat, merges: seq<Pair>, j: nat)
    requires GoodMerges(freq, leaves, elems, merges) && j < |merges|
    ensures (merges[j].n in leaves || elems <= merges[j].n) && (merges[j].m in leaves || elems <= merges[j].m)
    decreases |merges|
  {
    var e := Earlier(merges);
    if j < |merges| - 1 {
      MergedLeaf(freq, leaves, elems, e, j);
      assert e[j] == merges[j];
    } else {
      FrontierKind(freq, leaves, elems, e, merges[j].n);
      FrontierKind(freq, leaves, elems, e, merges[j].m);
    }
  }

  // The state of the arrays as the pass sees it.
  ghost predicate Holds(s: TreeBuilder, tree: array<CtData>, p: Pass, overflow: nat, freq: seq<nat>)
    requires s.Sizes()
    reads s`optLen, s`staticLen, s.blCount, tree
  {
    && LensOf(tree[..]) == p.dl && FreqOf(tree[..]) == freq && s.blCount[..] == p.counts
    && overflow == p.overflow && s.optLen == p.opt && s.staticLen == p.stat
  }

  // One node: its parent's length and one, at most the limit.
  method SetLength(s: TreeBuilder, tree: array<CtData>, desc: Desc, maxCode: int, n: nat, overflow: nat, ghost p: Pass, ghost freq: seq<nat>)
    returns (overflow': nat)
    requires s.Sizes() && ValidDesc(desc) && Holds(s, tree, p, overflow, freq) && |p.counts| == 16
    requires n < tree.Length && tree[n].dl < tree.Length && (n <= maxCode <==> n < desc.elems)
    modifies s`optLen, s`staticLen, s.blCount, tree
    ensures Holds(s, tree, SetNode(desc, freq, p, n), overflow', freq)
  {
    hide Pow2;
    ghost var t := tree[..];
    var bits := tree[tree[n].dl].dl + 1;
    overflow' := overflow;
    if bits > desc.maxLength { bits, overflow' := desc.maxLength, overflow + 1; }
    tree[n] := tree[n].(dl := bits);
    LensUpdate(t, n, bits);
    assert tree[..] == t[n := t[n].(dl := bits)];
    if n > maxCode { return; }
    s.blCount[bits] := s.blCount[bits] + 1;
    var xbits := 0;
    if n >= desc.extraBase { xbits := desc.extraBits[n - desc.extraBase]; }
    var f := tree[n].fc;
    s.optLen := s.optLen + f * (bits + xbits);
    if desc.staticLens != [] { s.staticLen := s.staticLen + f * (desc.staticLens[n] + xbits); }
  }

  lemma LensUpdate(t: seq<CtData>, n: nat, b: nat)
    requires n < |t|
    ensures LensOf(t[n := t[n].(dl := b)]) == LensOf(t)[n := b] && FreqOf(t[n := t[n].(dl := b)]) == FreqOf(t)
  {}

  function NewPass(dl: seq<nat>, root: nat, opt: int, stat: int): Pass
    requires root < |dl|
  {
    Pass(dl[root := 0], seq(16, _ => 0), 0, opt, stat)
  }

  lemma DadsBelowRoot(freq: seq<nat>, leaves: set<nat>, elems: nat, merges: seq<Pair>, dl: seq<nat>)
    requires GoodMerges(freq, leaves, elems, merges) && Symbols(leaves, elems) && merges != []
    requires Dads(dl, elems, merges) && elems + |merges| <= |dl|
    ensures Dads(dl[elems + |merges| - 1 := 0], elems, merges)
  {
    forall j | 0 <= j < |merges| ensures merges[j].n < elems + |merges| - 1 && merges[j].m < elems + |merges| - 1 {
      MergedIsGone(freq, leaves, elems, merges, j);
    }
  }

  lemma PrefixStep(order: seq<nat>, i: nat)
    requires i < |order|
    ensures order[..i + 1] == order[..i] + [order[i]]
  {}

  lemma PrefixAll(order: seq<nat>)
    ensures order[..|order|] == order
  {}

  // All lengths, top down; some may be cut off at the limit.
  method FirstPass(s: TreeBuilder, tree: array<CtData>, desc: Desc, maxCode: int, ghost freq: seq<nat>,
      ghost leaves: set<nat>, ghost merges: seq<Pair>)
    returns (overflow: nat, ghost p: Pass)
    requires s.Sizes() && s.heapMax < HEAP_SIZE
    requires Grown(desc, freq, leaves, merges, maxCode, LensOf(tree[..]), s.heap[s.heapMax..]) && FreqOf(tree[..]) == freq
    modifies s`optLen, s`staticLen, s.blCount, tree
    ensures Holds(s, tree, p, overflow, freq)
    ensures Sound(desc, freq, p, leaves, old(s.optLen), old(s.staticLen), MergeCost(WeightsOver(leaves, freq)))
    ensures overflow == 0 <==> !TooDeep(leaves, desc.elems, merges, desc.maxLength)
    ensures forall i | 0 <= i < desc.elems && i !in leaves :: At(p.dl, i) == At(LensOf(old(tree[..])), i)
  {
    hide GoodMerges, Assign, Order, SetNode, Sound, MergeCost, WeightsOver, Pow2, TooDeep, Frontier, Dads;
    ghost var dl, list, order := LensOf(tree[..]), s.heap[s.heapMax..], Order(merges);
    var bits := 0;
    while bits <= 15
      invariant 0 <= bits <= 16 && forall b | 0 <= b < bits :: s.blCount[b] == 0
      invariant tree[..] == old(tree[..]) && s.optLen == old(s.optLen) && s.staticLen == old(s.staticLen)
    {
      s.blCount[bits] := 0;
      bits := bits + 1;
    }
    var root := s.heap[s.heapMax];
    assert root == list[0];
    LensUpdate(tree[..], root, 0);
    ghost var t := tree[..];
    tree[root] := tree[root].(dl := 0);
    assert tree[..] == t[root := t[root].(dl := 0)];
    ghost var p0 := NewPass(dl, root, s.optLen, s.staticLen);
    p, overflow := p0, 0;
    assert s.blCount[..] == p0.counts;
    AssignNone(desc, freq, p0, order);
    var h := s.heapMax + 1;
    while h < HEAP_SIZE
      invariant s.heapMax + 1 <= h <= HEAP_SIZE
      invariant Holds(s, tree, p, overflow, freq) && |p.counts| == 16 && |p.dl| == |dl|
      invariant p == Assign(desc, freq, p0, order[..h - s.heapMax - 1])
    {
      ghost var i := h - s.heapMax - 1;
      ListEntry(desc, freq, leaves, merges, maxCode, dl, list, p0, i);
      var n := s.heap[h];
      assert n == list[i + 1];
      PrefixStep(order, i);
      AssignMore(desc, freq, p0, order[..i], n);
      overflow := SetLength(s, tree, desc, maxCode, n, overflow, p, freq);
      p := SetNode(desc, freq, p, n);
      h := h + 1;
    }
    assert h - s.heapMax - 1 == |order|;
    PrefixAll(order);
    DadsBelowRoot(freq, leaves, desc.elems, merges, dl);
    TreeSound(desc, freq, leaves, merges, p0);
    TreeOverflow(desc, freq, leaves, merges, p0);
    forall i | 0 <= i < desc.elems && i !in leaves ensures At(p.dl, i) == At(dl, i) {
      OtherSymbol(desc, freq, leaves, merges, p0, i);
    }
  }

  // A symbol that is no leaf is not in the list.
  lemma OtherSymbol(desc: Desc, freq: seq<nat>, leaves: set<nat>, merges: seq<Pair>, p0: Pass, i: nat)
    requires GoodMerges(freq, leaves, desc.elems, merges) && Symbols(leaves, desc.elems) && i < desc.elems && i !in leaves
    ensures At(Assign(desc, freq, p0, Order(merges)).dl, i) == At(p0.dl, i)
  {
    if i in Order(merges) {
      OrderHas(merges, i);
      var j :| 0 <= j < |merges| && (i == merges[j].n || i == merges[j].m);
      MergedLeaf(freq, leaves, desc.elems, merges, j);
    }
    AssignKeeps(desc, freq, p0, Order(merges), i);
  }

  lemma AssignNone(desc: Desc, freq: seq<nat>, p: Pass, order: seq<nat>)
    ensures Assign(desc, freq, p, order[..0]) == p
  {}

  // ------------------------------------------------------------ lengths for the new counts

  // How many leaves of length b have been given out: all of the greater lengths, and all
  // but n of the current one.
  function Given(counts: seq<nat>, bits: nat, n: int, b: nat): int
    requires |counts| == 16 && b < 16
  {
    if b > bits then counts[b] else if b == bits then counts[b] - n else 0
  }

  // The leaves in r have their new lengths; the others keep the old ones for now.
  ghost predicate Reassigning(desc: Desc, freq: seq<nat>, dl: seq<nat>, counts: seq<nat>, opt: int, opt0: int,
                              leaves: set<nat>, r: set<nat>, bits: nat, n: int) {
    && |counts| == 16 && bits <= 15 && 0 <= n <= counts[bits] && r <= leaves
    && InRange(desc, dl, leaves)
    && opt == opt0 + Over(leaves, Bills(desc, freq, dl))
    && (forall b | 1 <= b < 16 :: Over(r, Leaves(desc, dl, b)) == Given(counts, bits, n, b))
    && |r| + (if bits == 0 then 0 else Total(counts, bits - 1)) + n == |leaves|
  }

  lemma BillChange(desc: Desc, freq: seq<nat>, dl: seq<nat>, leaves: set<nat>, m: nat, bits: nat)
    requires m in leaves && m < |dl| && m < desc.elems
    ensures Over(leaves, Bills(desc, freq, dl[m := bits])) == Over(leaves, Bills(desc, freq, dl)) + (bits - dl[m]) * At(freq, m)
  {
    hide Over;
    var g, h := Bills(desc, freq, dl), Bills(desc, freq, dl[m := bits]);
    OverRemove(leaves, g, m);
    OverRemove(leaves, h, m);
    OverSame(leaves - {m}, g, h);
    var f, x := At(freq, m), ExtraOf(desc, m);
    assert h[m] - g[m] == f * (bits + x) - f * (dl[m] + x) == (bits - dl[m]) * f;
  }

  lemma GiveOne(desc: Desc, freq: seq<nat>, dl: seq<nat>, counts: seq<nat>, opt: int, opt0: int,
                leaves: set<nat>, r: set<nat>, bits: nat, n: int, m: nat)
    requires Reassigning(desc, freq, dl, counts, opt, opt0, leaves, r, bits, n) && Symbols(leaves, desc.elems)
    requires m in leaves && m !in r && n > 0 && 1 <= bits <= desc.maxLength
    ensures m < |dl| && Reassigning(desc, freq, dl[m := bits], counts, opt + (bits - dl[m]) * At(freq, m), opt0, leaves, r + {m}, bits, n - 1)
  {
    hide Over, Total, Bill;
    var dl' := dl[m := bits];
    BillChange(desc, freq, dl, leaves, m, bits);
    forall b | 1 <= b < 16 ensures Over(r + {m}, Leaves(desc, dl', b)) == Given(counts, bits, n - 1, b) {
      OverSame(r, Leaves(desc, dl, b), Leaves(desc, dl', b));
      OverAdd(r, Leaves(desc, dl', b), m);
    }
  }

  // On to the next shorter length.
  lemma NextLength(desc: Desc, freq: seq<nat>, dl: seq<nat>, counts: seq<nat>, opt: int, opt0: int,
                   leaves: set<nat>, r: set<nat>, bits: nat)
    requires Reassigning(desc, freq, dl, counts, opt, opt0, leaves, r, bits, 0) && 1 <= bits
    ensures Reassigning(desc, freq, dl, counts, opt, opt0, leaves, r, bits - 1, counts[bits - 1])
  {
    hide Over;
  }

  lemma NothingGiven(desc: Desc, freq: seq<nat>, dl: seq<nat>, counts: seq<nat>, opt: int, opt0: int, leaves: set<nat>)
    requires Repairable(counts, desc.maxLength, |leaves|, 0) && InRange(desc, dl, leaves)
    requires opt == opt0 + Over(leaves, Bills(desc, freq, dl))
    ensures Reassigning(desc, freq, dl, counts, opt, opt0, leaves, {}, desc.maxLength, counts[desc.maxLength])
  {
    hide Over, LevelSum;
    forall b | 1 <= b < 16 ensures Over({}, Leaves(desc, dl, b)) == Given(counts, desc.maxLength, counts[desc.maxLength], b) {
      OverNone(Leaves(desc, dl, b));
    }
  }

  // Exactly the leaves from entry k of the list on.
  ghost predicate GivenFrom(leaves: set<nat>, r: set<nat>, list: seq<nat>, k: nat)
    requires k <= |list|
  {
    forall x | x in leaves :: x in r <==> x in list[k..]
  }

  lemma RoomLeft(desc: Desc, freq: seq<nat>, dl: seq<nat>, counts: seq<nat>, opt: int, opt0: int,
                 leaves: set<nat>, r: set<nat>, bits: nat, n: int, list: seq<nat>, k: nat)
    requires Reassigning(desc, freq, dl, counts, opt, opt0, leaves, r, bits, n) && n > 0 && k <= |list|
    requires GivenFrom(leaves, r, list, k) && forall x | x in leaves :: x in list
    ensures k > 0
  {
    LeafRemains(leaves, r, list, k);
  }

  lemma NoneGiven(leaves: set<nat>, list: seq<nat>, k: nat)
    requires k == |list|
    ensures GivenFrom(leaves, {}, list, k)
  {}

  // When every length is given out, every leaf has one.
  lemma AllGiven(desc: Desc, freq: seq<nat>, dl: seq<nat>, counts: seq<nat>, opt: int, opt0: int, leaves: set<nat>, r: set<nat>)
    requires Reassigning(desc, freq, dl, counts, opt, opt0, leaves, r, 0, 0) && counts[0] == 0
    ensures r == leaves && InRange(desc, dl, leaves) && opt == opt0 + Over(leaves, Bills(desc, freq, dl))
    ensures forall b | 0 <= b < 16 :: counts[b] == Over(leaves, Leaves(desc, dl, b))
  {
    hide Bills;
    assert |leaves - r| == 0;
    OverZero(leaves, Leaves(desc, dl, 0));
  }

  // While lengths remain, so does a leaf further down the list.
  lemma LeafRemains(leaves: set<nat>, r: set<nat>, list: seq<nat>, k: nat)
    requires |r| < |leaves| && k <= |list|
    requires forall x | x in leaves :: x in list
    requires forall x | x in leaves && x in list[k..] :: x in r
    ensures k > 0
  {
    if leaves <= r {
      SubsetSize(leaves, r);
    }
    var x :| x in leaves && x !in r;
    assert list[0..] == list;
  }

  lemma SubsetSize(a: set<nat>, b: set<nat>)
    requires a <= b
    ensures |a| <= |b|
  {
    assert b == a + (b - a);
  }

  lemma {:induction false} LeavesListed(leaves: set<nat>, elems: nat, merges: seq<Pair>, x: nat)
    requires x in leaves
    ensures x in Frontier(leaves, elems, merges) || x in Order(merges)
    decreases |merges|
  {
    if merges != [] { LeavesListed(leaves, elems, Earlier(merges), x); }
  }

  // The list holds each leaf once, and apart from them only nodes made by merges.
  lemma ListIs(desc: Desc, freq: seq<nat>, leaves: set<nat>, merges: seq<Pair>, maxCode: int, dl: seq<nat>, list: seq<nat>)
    requires Grown(desc, freq, leaves, merges, maxCode, dl, list)
    ensures NoneTwice(list) && (forall x | x in leaves :: x in list)
    ensures forall x | x in list :: x < |dl| && (x <= maxCode ==> x in leaves)
  {
    hide GoodMerges, Order;
    var order, root := Order(merges), desc.elems + |merges| - 1;
    OnlyRoot(freq, leaves, desc.elems, merges);
    OrderOnce(freq, leaves, desc.elems, merges);
    forall x | x in leaves ensures x in list {
      LeavesListed(leaves, desc.elems, merges, x);
    }
    forall x | x in order ensures x < root && (x <= maxCode ==> x in leaves) {
      OrderHas(merges, x);
      var j :| 0 <= j < |merges| && (x == merges[j].n || x == merges[j].m);
      MergedIsGone(freq, leaves, desc.elems, merges, j);
      MergedLeaf(freq, leaves, desc.elems, merges, j);
    }
    OneMore(root, order);
  }

  lemma OneMore(x: nat, list: seq<nat>)
    requires x !in list && NoneTwice(list)
    ensures NoneTwice([x] + list)
  {
    var l := [x] + list;
    forall i, j | 0 <= i < j < |l| ensures l[i] != l[j] {
      if i >= 1 { assert list[i - 1] != list[j - 1]; } else { assert list[j - 1] in list; }
    }
  }

  lemma TakeEntry(leaves: set<nat>, r: set<nat>, list: seq<nat>, k: nat)
    requires 0 < k <= |list| && NoneTwice(list) && GivenFrom(leaves, r, list, k)
    ensures var m := list[k - 1]; m in leaves ==> m !in r
    ensures var m := list[k - 1]; GivenFrom(leaves, if m in leaves then r + {m} else r, list, k - 1)
  {
    var m := list[k - 1];
    assert list[k - 1..] == [m] + list[k..];
    assert m !in list[k..];
  }

  // ------------------------------------------------------------ rarer symbols get longer words

  // A more frequent symbol never has a longer word.
  predicate RarerLonger(freq: seq<nat>, dl: seq<nat>, leaves: set<nat>) {
    forall x, y | x in leaves && y in leaves && At(freq, x) < At(freq, y) :: At(dl, y) <= At(dl, x)
  }

  predicate Descending(freq: seq<nat>, list: seq<nat>) {
    forall i, j | 0 <= i < j < |list| :: At(freq, list[j]) <= At(freq, list[i])
  }

  predicate AllBelow(freq: seq<nat>, list: seq<nat>, s: set<nat>) {
    forall x, y | x in list && y in s :: At(freq, x) <= At(freq, y)
  }

  lemma BelowMore(freq: seq<nat>, list: seq<nat>, s: set<nat>, n: nat, m: nat, d: nat)
    requires AllBelow(freq, list, s) && Lightest(freq, s, n) && Lightest(freq, s - {n}, m)
    requires d < |freq| && freq[d] == freq[n] + freq[m]
    ensures AllBelow(freq, [m, n] + list, s - {n, m} + {d})
  {
    forall x, y | x in [m, n] + list && y in s - {n, m} + {d} ensures At(freq, x) <= At(freq, y) {
      if y == d && x in list { assert At(freq, x) <= At(freq, n); }
    }
  }

  lemma DescendingMore(freq: seq<nat>, list: seq<nat>, s: set<nat>, n: nat, m: nat)
    requires AllBelow(freq, list, s) && Descending(freq, list) && Lightest(freq, s, n) && Lightest(freq, s - {n}, m)
    ensures Descending(freq, [m, n] + list)
  {
    var l := [m, n] + list;
    forall i, j | 0 <= i < j < |l| ensures At(freq, l[j]) <= At(freq, l[i]) {
      if j >= 2 {
        assert l[j] == list[j - 2] && l[j] in list;
        if i >= 2 { assert l[i] == list[i - 2]; } else { assert At(freq, l[j]) <= At(freq, n) <= At(freq, m); }
      }
    }
  }

  // Merging the lightest, the nodes are taken in order of frequency.
  lemma {:induction false} OrderDescends(freq: seq<nat>, leaves: set<nat>, elems: nat, merges: seq<Pair>)
    requires GoodMerges(freq, leaves, elems, merges)
    ensures AllBelow(freq, Order(merges), Frontier(leaves, elems, merges)) && Descending(freq, Order(merges))
    decreases |merges|
  {
    if merges != [] {
      hide Lightest, AllBelow, Descending;
      OrderDescends(freq, leaves, elems, Earlier(merges));
      var s, p := Frontier(leaves, elems, Earlier(merges)), Last(merges);
      BelowMore(freq, Order(Earlier(merges)), s, p.n, p.m, elems + |merges| - 1);
      DescendingMore(freq, Order(Earlier(merges)), s, p.n, p.m);
    }
  }

  lemma ListDescends(desc: Desc, freq: seq<nat>, leaves: set<nat>, merges: seq<Pair>, maxCode: int, dl: seq<nat>, list: seq<nat>)
    requires Grown(desc, freq, leaves, merges, maxCode, dl, list)
    ensures Descending(freq, list)
  {
    hide GoodMerges, Order;
    var order, root := Order(merges), desc.elems + |merges| - 1;
    OnlyRoot(freq, leaves, desc.elems, merges);
    OrderDescends(freq, leaves, desc.elems, merges);
    assert root in Frontier(leaves, desc.elems, merges);
    forall i, j | 0 <= i < j < |list| ensures At(freq, list[j]) <= At(freq, list[i]) {
      assert list[j] == order[j - 1] && list[j] in order;
      if i >= 1 { assert list[i] == order[i - 1]; }
    }
  }

  // The leaves from entry k on have lengths of at least bits, longer ones later.
  predicate Stepped(dl: seq<nat>, list: seq<nat>, leaves: set<nat>, k: nat, bits: nat) {
    && (forall i | k <= i < |list| && list[i] in leaves :: bits <= At(dl, list[i]))
    && forall i, j | k <= i < j < |list| && list[i] in leaves && list[j] in leaves :: At(dl, list[i]) <= At(dl, list[j])
  }

  lemma SteppedMore(dl: seq<nat>, list: seq<nat>, leaves: set<nat>, k: nat, bits: nat)
    requires 0 < k <= |list| && NoneTwice(list) && Stepped(dl, list, leaves, k, bits)
    ensures var m := list[k - 1];
      if m in leaves then m < |dl| ==> Stepped(dl[m := bits], list, leaves, k - 1, bits) else Stepped(dl, list, leaves, k - 1, bits)
  {}

  lemma SteppedShorter(dl: seq<nat>, list: seq<nat>, leaves: set<nat>, k: nat, bits: nat)
    requires Stepped(dl, list, leaves, k, bits) && 1 <= bits
    ensures Stepped(dl, list, leaves, k, bits - 1)
  {}

  lemma SteppedAll(freq: seq<nat>, dl: seq<nat>, list: seq<nat>, leaves: set<nat>, k: nat, bits: nat)
    requires Stepped(dl, list, leaves, k, bits) && Descending(freq, list) && k <= |list| && GivenFrom(leaves, leaves, list, k)
    ensures RarerLonger(freq, dl, leaves)
  {
    forall x, y | x in leaves && y in leaves && At(freq, x) < At(freq, y) ensures At(dl, y) <= At(dl, x) {
      assert x in list[k..] && y in list[k..];
      var i :| 0 <= i < |list[k..]| && list[k..][i] == x;
      var j :| 0 <= j < |list[k..]| && list[k..][j] == y;
      assert list[k + i] == x && list[k + j] == y;
    }
  }

  // In the middle of giving lengths out: n of `bits` are left, and the list down to entry k.
  ghost predicate Giving(desc: Desc, freq: seq<nat>, dl: seq<nat>, counts: seq<nat>, opt: int, opt0: int,
                         leaves: set<nat>, r: set<nat>, bits: nat, n: int, list: seq<nat>, k: nat) {
    && k <= |list| && Reassigning(desc, freq, dl, counts, opt, opt0, leaves, r, bits, n)
    && GivenFrom(leaves, r, list, k) && Stepped(dl, list, leaves, k, bits)
  }

  lemma GivingStarts(desc: Desc, freq: seq<nat>, dl: seq<nat>, counts: seq<nat>, opt: int, opt0: int, leaves: set<nat>, list: seq<nat>)
    requires Repairable(counts, desc.maxLength, |leaves|, 0) && InRange(desc, dl, leaves)
    requires opt == opt0 + Over(leaves, Bills(desc, freq, dl))
    ensures Giving(desc, freq, dl, counts, opt, opt0, leaves, {}, desc.maxLength, counts[desc.maxLength], list, |list|)
  {
    hide Repairable, Reassigning, Over, InRange;
    NothingGiven(desc, freq, dl, counts, opt, opt0, leaves);
    NoneGiven(leaves, list, |list|);
    NoneStepped(dl, list, leaves, desc.maxLength);
  }

  // The next entry: an inner node is passed over, a leaf gets the length.
  lemma GivingNext(desc: Desc, freq: seq<nat>, dl: seq<nat>, counts: seq<nat>, opt: int, opt0: int,
                   leaves: set<nat>, r: set<nat>, bits: nat, n: int, list: seq<nat>, k: nat)
    requires Giving(desc, freq, dl, counts, opt, opt0, leaves, r, bits, n, list, k) && n > 0 && 1 <= bits <= desc.maxLength
    requires Symbols(leaves, desc.elems) && NoneTwice(list) && forall x | x in leaves :: x in list
    ensures k > 0
    ensures var m := list[k - 1];
      if m in leaves then
        m < |dl| && Giving(desc, freq, dl[m := bits], counts, opt + (bits - dl[m]) * At(freq, m), opt0, leaves, r + {m}, bits, n - 1, list, k - 1)
      else Giving(desc, freq, dl, counts, opt, opt0, leaves, r, bits, n, list, k - 1)
  {
    hide Reassigning, GivenFrom, Stepped, NoneTwice;
    RoomLeft(desc, freq, dl, counts, opt, opt0, leaves, r, bits, n, list, k);
    TakeEntry(leaves, r, list, k);
    SteppedMore(dl, list, leaves, k, bits);
    var m := list[k - 1];
    if m in leaves { GiveOne(desc, freq, dl, counts, opt, opt0, leaves, r, bits, n, m); }
  }

  lemma GivingShorter(desc: Desc, freq: seq<nat>, dl: seq<nat>, counts: seq<nat>, opt: int, opt0: int,
                      leaves: set<nat>, r: set<nat>, bits: nat, list: seq<nat>, k: nat)
    requires Giving(desc, freq, dl, counts, opt, opt0, leaves, r, bits, 0, list, k) && 1 <= bits
    ensures |counts| == 16 && bits <= 15
    ensures Giving(desc, freq, dl, counts, opt, opt0, leaves, r, bits - 1, counts[bits - 1], list, k)
  {
    hide GivenFrom, Stepped;
    NextLength(desc, freq, dl, counts, opt, opt0, leaves, r, bits);
    SteppedShorter(dl, list, leaves, k, bits);
  }

  lemma GivingEnds(desc: Desc, freq: seq<nat>, dl: seq<nat>, counts: seq<nat>, opt: int, opt0: int,
                   leaves: set<nat>, r: set<nat>, list: seq<nat>, k: nat)
    requires |counts| == 16 && counts[0] == 0 && Descending(freq, list)
    requires Giving(desc, freq, dl, counts, opt, opt0, leaves, r, 0, counts[0], list, k)
    ensures RarerLonger(freq, dl, leaves) && InRange(desc, dl, leaves) && opt == opt0 + Over(leaves, Bills(desc, freq, dl))
    ensures forall b | 0 <= b < 16 :: counts[b] == Over(leaves, Leaves(desc, dl, b))
  {
    hide Reassigning, GivenFrom, Stepped, Descending, RarerLonger, InRange, Over;
    AllGiven(desc, freq, dl, counts, opt, opt0, leaves, r);
    SteppedAll(freq, dl, list, leaves, k, 0);
  }

  // Gives lengths out from the greatest, to the leaves in order of increasing frequency.
  method Reassign(s: TreeBuilder, tree: array<CtData>, desc: Desc, maxCode: int, ghost freq: seq<nat>, ghost leaves: set<nat>,
                  ghost list: seq<nat>, ghost opt0: int)
    requires s.Sizes() && s.heapMax < HEAP_SIZE && list == s.heap[s.heapMax..] && FreqOf(tree[..]) == freq
    requires Symbols(leaves, desc.elems) && NoneTwice(list) && (forall x | x in leaves :: x in list)
    requires forall x | x in list :: x < tree.Length && (x <= maxCode ==> x in leaves)
    requires maxCode < desc.elems && (forall x | x in leaves :: x <= maxCode)
    requires 1 <= desc.maxLength <= 15 && Repairable(s.blCount[..], desc.maxLength, |leaves|, 0)
    requires InRange(desc, LensOf(tree[..]), leaves)
    requires s.optLen == opt0 + Over(leaves, Bills(desc, freq, LensOf(tree[..]))) && Descending(freq, list)
    modifies s`optLen, tree
    ensures RarerLonger(freq, LensOf(tree[..]), leaves)
    ensures FreqOf(tree[..]) == freq && InRange(desc, LensOf(tree[..]), leaves)
    ensures s.optLen == opt0 + Over(leaves, Bills(desc, freq, LensOf(tree[..])))
    ensures forall b | 0 <= b < 16 :: s.blCount[b] == Over(leaves, Leaves(desc, LensOf(tree[..]), b))
    ensures forall i | 0 <= i < tree.Length && i !in leaves :: tree[i] == old(tree[i])
  {
    hide Over, Total, LevelSum, Pow2, Bill, InRange, Repairable, Giving, Descending, RarerLonger, NoneTwice, Symbols;
    ghost var counts := s.blCount[..];
    ghost var r: set<nat> := {};
    var h := HEAP_SIZE;
    GivingStarts(desc, freq, LensOf(tree[..]), counts, s.optLen, opt0, leaves, list);
    var bits := desc.maxLength;
    while bits != 0
      invariant 0 <= bits <= desc.maxLength && s.heapMax <= h <= HEAP_SIZE && FreqOf(tree[..]) == freq
      invariant Giving(desc, freq, LensOf(tree[..]), counts, s.optLen, opt0, leaves, r, bits, counts[bits], list, h - s.heapMax)
      invariant forall i | 0 <= i < tree.Length && i !in leaves :: tree[i] == old(tree[i])
    {
      var n := s.blCount[bits];
      while n != 0
        invariant 0 <= n && s.heapMax <= h <= HEAP_SIZE && FreqOf(tree[..]) == freq
        invariant Giving(desc, freq, LensOf(tree[..]), counts, s.optLen, opt0, leaves, r, bits, n, list, h - s.heapMax)
        invariant forall i | 0 <= i < tree.Length && i !in leaves :: tree[i] == old(tree[i])
        decreases h
      {
        GivingNext(desc, freq, LensOf(tree[..]), counts, s.optLen, opt0, leaves, r, bits, n, list, h - s.heapMax);
        h := h - 1;
        var m := s.heap[h];
        assert m == list[h - s.heapMax];
        if m > maxCode { continue; }
        r := r + {m};
        var delta := Relabel(tree, m, bits);
        s.optLen := s.optLen + delta;
        n := n - 1;
      }
      GivingShorter(desc, freq, LensOf(tree[..]), counts, s.optLen, opt0, leaves, r, bits, list, h - s.heapMax);
      bits := bits - 1;
    }
    NoZeros(counts, desc.maxLength, |leaves|);
    GivingEnds(desc, freq, LensOf(tree[..]), counts, s.optLen, opt0, leaves, r, list, h - s.heapMax);
  }

  lemma NoneStepped(dl: seq<nat>, list: seq<nat>, leaves: set<nat>, bits: nat)
    ensures Stepped(dl, list, leaves, |list|, bits)
  {}

  lemma NoZeros(counts: seq<nat>, max: nat, n: nat)
    requires Repairable(counts, max, n, 0)
    ensures |counts| == 16 && counts[0] == 0
  {}

  // One leaf's new length, and what it adds to the total.
  method Relabel(tree: array<CtData>, m: nat, bits: nat) returns (delta: int)
    requires m < tree.Length
    modifies tree
    ensures LensOf(tree[..]) == LensOf(old(tree[..]))[m := bits] && FreqOf(tree[..]) == FreqOf(old(tree[..]))
    ensures delta == (bits - old(tree[m].dl)) * old(tree[m].fc)
    ensures forall i | 0 <= i < tree.Length && i != m :: tree[i] == old(tree[i])
  {
    delta := 0;
    ghost var t := tree[..];
    LensUpdate(t, m, bits);
    if tree[m].dl != bits {
      delta := (bits - tree[m].dl) * tree[m].fc;
      tree[m] := tree[m].(dl := bits);
      assert tree[..] == t[m := t[m].(dl := bits)];
    } else {
      assert t == t[m := t[m].(dl := bits)];
    }
  }

  // Lengths for the leaves that fill the code space exactly, and totals to match; when the
  // limit was not in the way they are the cheapest possible.
  ghost predicate Settled(desc: Desc, freq: seq<nat>, dl: seq<nat>, counts: seq<nat>, opt: int, stat: int, opt0: int, stat0: int,
                          leaves: set<nat>, limited: bool) {
    && |counts| == 16 && 1 <= desc.maxLength <= 15 && InRange(desc, dl, leaves)
    && Over(leaves, Spaces(dl, desc.maxLength)) == 32768
    && (forall b | 0 <= b < 16 :: counts[b] == Over(leaves, Leaves(desc, dl, b)))
    && opt == opt0 + Over(leaves, Bills(desc, freq, dl)) && stat == stat0 + Over(leaves, StaticBills(desc, freq, |dl|))
    && (if limited then counts[desc.maxLength] > 0 else Over(leaves, Costs(freq, dl)) == MergeCost(WeightsOver(leaves, freq)))
  }

  method GenBitlen(s: TreeBuilder, tree: array<CtData>, desc: Desc, maxCode: int, ghost freq: seq<nat>,
      ghost leaves: set<nat>, ghost merges: seq<Pair>)
    returns (ghost limited: bool)
    requires s.Sizes() && s.heapMax < HEAP_SIZE
    requires Grown(desc, freq, leaves, merges, maxCode, LensOf(tree[..]), s.heap[s.heapMax..]) && FreqOf(tree[..]) == freq
    modifies s`optLen, s`staticLen, s.blCount, tree
    ensures FreqOf(tree[..]) == freq
    ensures Settled(desc, freq, LensOf(tree[..]), s.blCount[..], s.optLen, s.staticLen, old(s.optLen), old(s.staticLen), leaves, limited)
    ensures limited <==> TooDeep(leaves, desc.elems, merges, desc.maxLength)
    ensures limited ==> RarerLonger(freq, LensOf(tree[..]), leaves)
    ensures forall i | 0 <= i < desc.elems && i !in leaves :: At(LensOf(tree[..]), i) == At(LensOf(old(tree[..])), i)
  {
    hide Sound, Grown, Settled, MergeCost, WeightsOver, Repairable, GoodMerges, Pow2, Over, TooDeep, Descending, RarerLonger;
    ghost var dl0, list := LensOf(tree[..]), s.heap[s.heapMax..];
    ListIs(desc, freq, leaves, merges, maxCode, dl0, list);
    ListDescends(desc, freq, leaves, merges, maxCode, dl0, list);
    var overflow;
    ghost var p;
    overflow, p := FirstPass(s, tree, desc, maxCode, freq, leaves, merges);
    limited := overflow != 0;
    ghost var made := MergeCost(WeightsOver(leaves, freq));
    if overflow == 0 {
      SoundSettles(desc, freq, p, leaves, old(s.optLen), old(s.staticLen), made);
      return;
    }
    GrownParts(desc, freq, leaves, merges, maxCode, dl0, list);
    SoundRepairable(desc, freq, p, leaves, old(s.optLen), old(s.staticLen), made);
    Repair(s.blCount, desc.maxLength, |leaves|, overflow);
    ghost var t := tree[..];
    Reassign(s, tree, desc, maxCode, freq, leaves, list, old(s.optLen));
    RepairedSettles(desc, freq, LensOf(tree[..]), s.blCount[..], s.optLen, s.staticLen, old(s.optLen), old(s.staticLen), leaves);
  }

  lemma SoundSettles(desc: Desc, freq: seq<nat>, p: Pass, leaves: set<nat>, opt0: int, stat0: int, made: nat)
    requires Sound(desc, freq, p, leaves, opt0, stat0, made) && made == MergeCost(WeightsOver(leaves, freq)) && p.overflow == 0
    ensures Settled(desc, freq, p.dl, p.counts, p.opt, p.stat, opt0, stat0, leaves, false)
  {}

  lemma GrownParts(desc: Desc, freq: seq<nat>, leaves: set<nat>, merges: seq<Pair>, maxCode: int, dl: seq<nat>, list: seq<nat>)
    requires Grown(desc, freq, leaves, merges, maxCode, dl, list)
    ensures ValidDesc(desc) && Symbols(leaves, desc.elems) && |leaves| <= Pow2(desc.maxLength)
    ensures maxCode < desc.elems && forall x | x in leaves :: x <= maxCode
  {
    FewerThan(leaves, desc.elems);
  }

  lemma {:induction false} FewerThan(s: set<nat>, n: nat)
    requires Symbols(s, n)
    ensures |s| <= n
  {
    if n == 0 {
      assert s == {};
    } else {
      FewerThan(s - {n - 1}, n - 1);
      SubsetSize(s, (s - {n - 1}) + {n - 1});
    }
  }

  lemma SoundRepairable(desc: Desc, freq: seq<nat>, p: Pass, leaves: set<nat>, opt0: int, stat0: int, made: nat)
    requires Sound(desc, freq, p, leaves, opt0, stat0, made) && Symbols(leaves, desc.elems) && |leaves| <= Pow2(desc.maxLength) && p.overflow > 0
    ensures Repairable(p.counts, desc.maxLength, |leaves|, p.overflow) && InRange(desc, p.dl, leaves)
    ensures p.opt == opt0 + Over(leaves, Bills(desc, freq, p.dl))
    ensures p.stat == stat0 + Over(leaves, StaticBills(desc, freq, |p.dl|))
  {
    PassRepairable(desc, p, leaves);
  }

  lemma RepairedSettles(desc: Desc, freq: seq<nat>, dl: seq<nat>, counts: seq<nat>, opt: int, stat: int, opt0: int, stat0: int, leaves: set<nat>)
    requires Repairable(counts, desc.maxLength, |leaves|, 0) && Symbols(leaves, desc.elems) && InRange(desc, dl, leaves)
    requires forall b | 0 <= b < 16 :: counts[b] == Over(leaves, Leaves(desc, dl, b))
    requires opt == opt0 + Over(leaves, Bills(desc, freq, dl)) && stat == stat0 + Over(leaves, StaticBills(desc, freq, |dl|))
    ensures Settled(desc, freq, dl, counts, opt, stat, opt0, stat0, leaves, true)
  {
    hide Over;
    LevelsAre(desc, Pass(dl, counts, 0, opt, stat), leaves, desc.maxLength);
    LimitReached(counts, desc.maxLength, |leaves|);
  }
}
