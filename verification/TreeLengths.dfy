// The first pass of gen_bitlen (deps/zlib/trees.c:563-586): walking from the root down the
// list of merges, every node gets its parent's length plus one, cut off at the limit.

module TreeLengths {
  import opened Powers
  import opened HuffmanCost
  import opened HuffmanMerges

  // What a tree is built for (static_tree_desc): its symbols, limit, extra bits, and the
  // lengths of the static tree, if there is one.
  datatype Desc = Desc(elems: nat, maxLength: nat, extraBase: nat, extraBits: seq<nat>, staticLens: seq<nat>)

  function ExtraOf(desc: Desc, n: nat): nat {
    if desc.extraBase <= n < desc.extraBase + |desc.extraBits| then desc.extraBits[n - desc.extraBase] else 0
  }

  function StaticOf(desc: Desc, n: nat): nat {
    if n < |desc.staticLens| then desc.staticLens[n] else 0
  }

  // The bits a symbol's occurrences take, with its extra bits.
  function Bill(desc: Desc, f: nat, n: nat, len: nat): nat {
    f * (len + ExtraOf(desc, n))
  }

  function StaticBill(desc: Desc, f: nat, n: nat): nat {
    if desc.staticLens == [] then 0 else f * (StaticOf(desc, n) + ExtraOf(desc, n))
  }

  // dl: a parent before, a length after a node is reached.
  datatype Pass = Pass(dl: seq<nat>, counts: seq<nat>, overflow: nat, opt: int, stat: int)

  function At(s: seq<nat>, i: nat): nat { if i < |s| then s[i] else 0 }

  function Bits(desc: Desc, p: Pass, n: nat): nat {
    var bits := At(p.dl, At(p.dl, n)) + 1;
    if bits > desc.maxLength then desc.maxLength else bits
  }

  function Over1(desc: Desc, p: Pass, n: nat): nat {
    if At(p.dl, At(p.dl, n)) + 1 > desc.maxLength then 1 else 0
  }

  function SetNode(desc: Desc, freq: seq<nat>, p: Pass, n: nat): (q: Pass)
    ensures |q.dl| == |p.dl| && |q.counts| == |p.counts|
  {
    if n >= |p.dl| then p
    else
      var bits := Bits(desc, p, n);
      var q := p.(dl := p.dl[n := bits], overflow := p.overflow + Over1(desc, p, n));
      if n >= desc.elems || bits >= |p.counts| then q
      else
        q.(counts := p.counts[bits := p.counts[bits] + 1],
           opt := p.opt + Bill(desc, At(freq, n), n, bits),
           stat := p.stat + StaticBill(desc, At(freq, n), n))
  }

  function Assign(desc: Desc, freq: seq<nat>, p: Pass, list: seq<nat>): (q: Pass)
    ensures |q.dl| == |p.dl| && |q.counts| == |p.counts|
    decreases |list|
  {
    if list == [] then p else Assign(desc, freq, SetNode(desc, freq, p, list[0]), list[1..])
  }

  // The order in which gen_bitlen finds the nodes above heap_max, the root aside.
  function Order(merges: seq<Pair>): (list: seq<nat>)
    ensures |list| == 2 * |merges|
    decreases |merges|
  {
    if merges == [] then [] else [Last(merges).m, Last(merges).n] + Order(Earlier(merges))
  }

  lemma {:induction false} AssignMore(desc: Desc, freq: seq<nat>, p: Pass, list: seq<nat>, n: nat)
    ensures Assign(desc, freq, p, list + [n]) == SetNode(desc, freq, Assign(desc, freq, p, list), n)
    decreases |list|
  {
    hide SetNode;
    if list == [] {
      assert ([] + [n])[1..] == [];
      assert Assign(desc, freq, SetNode(desc, freq, p, n), []) == SetNode(desc, freq, p, n);
    } else {
      assert (list + [n])[1..] == list[1..] + [n];
      AssignMore(desc, freq, SetNode(desc, freq, p, list[0]), list[1..], n);
    }
  }

  lemma {:induction false} AssignKeeps(desc: Desc, freq: seq<nat>, p: Pass, list: seq<nat>, x: nat)
    requires x !in list
    ensures At(Assign(desc, freq, p, list).dl, x) == At(p.dl, x)
    decreases |list|
  {
    if list != [] { AssignKeeps(desc, freq, SetNode(desc, freq, p, list[0]), list[1..], x); }
  }

  lemma AssignPair(desc: Desc, freq: seq<nat>, p: Pass, merges: seq<Pair>)
    requires merges != []
    ensures Assign(desc, freq, p, Order(merges)) ==
            Assign(desc, freq, SetNode(desc, freq, SetNode(desc, freq, p, Last(merges).m), Last(merges).n), Order(Earlier(merges)))
  {
    hide SetNode;
    var list := Order(merges);
    var rest := list[1..];
    assert list[0] == Last(merges).m && rest[0] == Last(merges).n;
    assert rest[1..] == Order(Earlier(merges));
  }

  // ------------------------------------------------------------ parents

  // Every merged node holds its parent.
  predicate Dads(dl: seq<nat>, elems: nat, merges: seq<Pair>) {
    forall j | 0 <= j < |merges| :: At(dl, merges[j].n) == elems + j == At(dl, merges[j].m)
  }

  lemma DadsEarlier(freq: seq<nat>, leaves: set<nat>, elems: nat, merges: seq<Pair>, dl: seq<nat>, dl': seq<nat>)
    requires merges != [] && GoodMerges(freq, leaves, elems, merges) && Symbols(leaves, elems)
    requires Dads(dl, elems, merges) && |dl'| == |dl|
    requires forall x | 0 <= x < |dl| && x != Last(merges).n && x != Last(merges).m :: dl'[x] == dl[x]
    ensures Dads(dl', elems, Earlier(merges))
  {
    var p, e := Last(merges), Earlier(merges);
    forall j | 0 <= j < |e| ensures At(dl', e[j].n) == elems + j == At(dl', e[j].m) {
      MergedIsGone(freq, leaves, elems, e, j);
      FrontierStep(freq, leaves, elems, merges);
      assert e[j] == merges[j];
    }
  }

  // ------------------------------------------------------------ one merge undone

  // What a node of length l takes of the code space, in units of 2^-15, if l <= c.
  function UnitOf(l: nat, c: nat): nat {
    if l <= c <= 15 then Pow2(15 - l) else 0
  }

  function Spaces(dl: seq<nat>, c: nat): (g: seq<int>)
    ensures |g| == |dl| && forall i | 0 <= i < |dl| :: g[i] == UnitOf(dl[i], c)
  {
    seq(|dl|, i requires 0 <= i < |dl| => UnitOf(dl[i], c))
  }

  // Leaves of length b.
  function LeafAt(desc: Desc, dl: seq<nat>, b: nat, i: nat): int {
    if i < desc.elems && At(dl, i) == b then 1 else 0
  }

  function Leaves(desc: Desc, dl: seq<nat>, b: nat): (g: seq<int>)
    ensures |g| == |dl| && forall i | 0 <= i < |dl| :: g[i] == LeafAt(desc, dl, b, i)
  {
    seq(|dl|, i requires 0 <= i < |dl| => LeafAt(desc, dl, b, i))
  }

  function BillAt(desc: Desc, freq: seq<nat>, dl: seq<nat>, i: nat): int {
    if i < desc.elems then Bill(desc, At(freq, i), i, At(dl, i)) else 0
  }

  function Bills(desc: Desc, freq: seq<nat>, dl: seq<nat>): (g: seq<int>)
    ensures |g| == |dl| && forall i | 0 <= i < |dl| :: g[i] == BillAt(desc, freq, dl, i)
  {
    seq(|dl|, i requires 0 <= i < |dl| => BillAt(desc, freq, dl, i))
  }

  function StaticAt(desc: Desc, freq: seq<nat>, i: nat): int {
    if i < desc.elems then StaticBill(desc, At(freq, i), i) else 0
  }

  function StaticBills(desc: Desc, freq: seq<nat>, k: nat): (g: seq<int>)
    ensures |g| == k && forall i | 0 <= i < k :: g[i] == StaticAt(desc, freq, i)
  {
    seq(k, i requires 0 <= i < k => StaticAt(desc, freq, i))
  }

  function CostAt(freq: seq<nat>, dl: seq<nat>, i: nat): int {
    At(freq, i) * At(dl, i)
  }

  function Costs(freq: seq<nat>, dl: seq<nat>): (g: seq<int>)
    ensures |g| == |dl| && forall i | 0 <= i < |dl| :: g[i] == CostAt(freq, dl, i)
  {
    seq(|dl|, i requires 0 <= i < |dl| => CostAt(freq, dl, i))
  }

  // d, whose children n and m it becomes, in a set of nodes.
  predicate Splits(s: set<nat>, dl: seq<nat>, d: nat, n: nat, m: nat) {
    && d in s && d < |dl| && n < |dl| && m < |dl| && n !in s && m !in s && n != m
    && dl[n] == d == dl[m]
  }

  function Split(s: set<nat>, d: nat, n: nat, m: nat): set<nat> {
    s - {d} + {n, m}
  }

  function Both(dl: seq<nat>, n: nat, m: nat, b: nat): (r: seq<nat>)
    requires n < |dl| && m < |dl|
    ensures |r| == |dl|
  {
    dl[m := b][n := b]
  }

  // What the two SetNode calls of a pair do.
  lemma PairLengths(desc: Desc, freq: seq<nat>, p: Pass, s: set<nat>, d: nat, n: nat, m: nat) returns (b: nat)
    requires Splits(s, p.dl, d, n, m)
    ensures b == if p.dl[d] + 1 > desc.maxLength then desc.maxLength else p.dl[d] + 1
    ensures var q := SetNode(desc, freq, SetNode(desc, freq, p, m), n);
            && q.dl == Both(p.dl, n, m, b)
            && q.overflow == p.overflow + if p.dl[d] + 1 > desc.maxLength then 2 else 0
    ensures b < |p.counts| ==>
            var q := SetNode(desc, freq, SetNode(desc, freq, p, m), n);
            && q.opt == p.opt + BillAt(desc, freq, q.dl, m) + BillAt(desc, freq, q.dl, n)
            && q.stat == p.stat + StaticAt(desc, freq, m) + StaticAt(desc, freq, n)
            && forall c | 0 <= c < |p.counts| :: q.counts[c] == p.counts[c] + LeafAt(desc, q.dl, c, m) + LeafAt(desc, q.dl, c, n)
  {
    hide Bill, StaticBill;
    b := if p.dl[d] + 1 > desc.maxLength then desc.maxLength else p.dl[d] + 1;
    var p1 := SetNode(desc, freq, p, m);
    assert Bits(desc, p, m) == b;
    assert p1.dl == p.dl[m := b];
    assert Bits(desc, p1, n) == b;
  }

  // ------------------------------------------------------------ what the pass keeps

  // The nodes' lengths are in range; a symbol's is not 0.
  predicate InRange(desc: Desc, dl: seq<nat>, s: set<nat>) {
    forall x | x in s :: x < |dl| && dl[x] <= desc.maxLength && (x < desc.elems ==> 1 <= dl[x])
  }

  // The Kraft sum is one, plus one unit of the greatest length for every two overflows;
  // what is shorter than the limit is at most one, and less once something overflows.
  predicate Filled(desc: Desc, p: Pass, s: set<nat>) {
    && 1 <= desc.maxLength <= 15 && p.overflow % 2 == 0
    && Over(s, Spaces(p.dl, desc.maxLength)) == 32768 + (p.overflow / 2) * Pow2(15 - desc.maxLength)
    && Over(s, Spaces(p.dl, desc.maxLength - 1)) <= 32768 - if p.overflow > 0 then Pow2(15 - desc.maxLength) else 0
  }

  predicate Counted(desc: Desc, p: Pass, s: set<nat>) {
    |p.counts| == 16 && forall b | 0 <= b < 16 :: p.counts[b] == Over(s, Leaves(desc, p.dl, b))
  }

  predicate Billed(desc: Desc, freq: seq<nat>, p: Pass, s: set<nat>, opt0: int, stat0: int) {
    && p.opt == opt0 + Over(s, Bills(desc, freq, p.dl))
    && p.stat == stat0 + Over(s, StaticBills(desc, freq, |p.dl|))
  }

  // Without overflow the lengths cost what the nodes split so far weigh.
  predicate Priced(freq: seq<nat>, p: Pass, s: set<nat>, made: nat) {
    p.overflow == 0 ==> Over(s, Costs(freq, p.dl)) == made
  }

  lemma SplitRange(desc: Desc, dl: seq<nat>, s: set<nat>, d: nat, n: nat, m: nat, b: nat)
    requires InRange(desc, dl, s) && Splits(s, dl, d, n, m) && 1 <= desc.maxLength
    requires b == if dl[d] + 1 > desc.maxLength then desc.maxLength else dl[d] + 1
    ensures InRange(desc, Both(dl, n, m, b), Split(s, d, n, m))
  {}

  lemma SplitSum(s: set<nat>, dl: seq<nat>, g: seq<int>, h: seq<int>, d: nat, n: nat, m: nat)
    requires Splits(s, dl, d, n, m) && |g| == |h| == |dl|
    requires forall i | 0 <= i < |g| && i != n && i != m :: g[i] == h[i]
    ensures Over(Split(s, d, n, m), h) == Over(s, g) - g[d] + h[n] + h[m]
  {
    OverReplace(s, g, h, d, n, m);
  }

  lemma SplitFilled(desc: Desc, p: Pass, q: Pass, s: set<nat>, d: nat, n: nat, m: nat, b: nat)
    requires Filled(desc, p, s) && Splits(s, p.dl, d, n, m) && p.dl[d] <= desc.maxLength
    requires b == if p.dl[d] + 1 > desc.maxLength then desc.maxLength else p.dl[d] + 1
    requires q.dl == Both(p.dl, n, m, b)
    requires q.overflow == p.overflow + if p.dl[d] + 1 > desc.maxLength then 2 else 0
    ensures Filled(desc, q, Split(s, d, n, m))
  {
    hide Over, Pow2, UnitOf;
    var x, l := desc.maxLength, p.dl[d];
    SplitSum(s, p.dl, Spaces(p.dl, x), Spaces(q.dl, x), d, n, m);
    SplitSum(s, p.dl, Spaces(p.dl, x - 1), Spaces(q.dl, x - 1), d, n, m);
    UnitSplit(l, x, b);
    MulAdd(p.overflow / 2, 1, Pow2(15 - x));
    if p.overflow == 0 && l == x { AtLimit(p.dl, s, d, x); }
  }

  // A node at the limit counts in the one sum and not in the other.
  lemma AtLimit(dl: seq<nat>, s: set<nat>, d: nat, x: nat)
    requires d in s && d < |dl| && dl[d] == x && 1 <= x <= 15
    ensures Over(s, Spaces(dl, x - 1)) + Pow2(15 - x) <= Over(s, Spaces(dl, x))
  {
    hide Over;
    OverRemove(s, Spaces(dl, x - 1), d);
    OverRemove(s, Spaces(dl, x), d);
    OverLe(s - {d}, Spaces(dl, x - 1), Spaces(dl, x));
  }

  lemma UnitSplit(l: nat, x: nat, b: nat)
    requires l <= x && 1 <= x <= 15 && b == if l + 1 > x then x else l + 1
    ensures 2 * UnitOf(b, x) == UnitOf(l, x) + if l + 1 > x then Pow2(15 - x) else 0
    ensures 2 * UnitOf(b, x - 1) <= UnitOf(l, x - 1)
  {}

  lemma SplitCounted(desc: Desc, p: Pass, q: Pass, s: set<nat>, d: nat, n: nat, m: nat, b: nat)
    requires Counted(desc, p, s) && Splits(s, p.dl, d, n, m) && q.dl == Both(p.dl, n, m, b) && desc.elems <= d
    requires |q.counts| == 16
    requires forall c | 0 <= c < |p.counts| :: q.counts[c] == p.counts[c] + LeafAt(desc, q.dl, c, m) + LeafAt(desc, q.dl, c, n)
    ensures Counted(desc, q, Split(s, d, n, m))
  {
    hide Over;
    forall c | 0 <= c < 16 ensures q.counts[c] == Over(Split(s, d, n, m), Leaves(desc, q.dl, c)) {
      SplitSum(s, p.dl, Leaves(desc, p.dl, c), Leaves(desc, q.dl, c), d, n, m);
    }
  }

  lemma SplitBilled(desc: Desc, freq: seq<nat>, p: Pass, q: Pass, s: set<nat>, opt0: int, stat0: int, d: nat, n: nat, m: nat, b: nat)
    requires Billed(desc, freq, p, s, opt0, stat0) && Splits(s, p.dl, d, n, m) && q.dl == Both(p.dl, n, m, b) && desc.elems <= d
    requires q.opt == p.opt + BillAt(desc, freq, q.dl, m) + BillAt(desc, freq, q.dl, n)
    requires q.stat == p.stat + StaticAt(desc, freq, m) + StaticAt(desc, freq, n)
    ensures Billed(desc, freq, q, Split(s, d, n, m), opt0, stat0)
  {
    hide Over, Bill, StaticBill;
    SplitSum(s, p.dl, Bills(desc, freq, p.dl), Bills(desc, freq, q.dl), d, n, m);
    var st := StaticBills(desc, freq, |p.dl|);
    SplitSum(s, p.dl, st, st, d, n, m);
  }

  lemma SplitPriced(desc: Desc, freq: seq<nat>, p: Pass, q: Pass, s: set<nat>, made: nat, d: nat, n: nat, m: nat, b: nat)
    requires Priced(freq, p, s, made) && Splits(s, p.dl, d, n, m) && q.dl == Both(p.dl, n, m, b)
    requires b == if p.dl[d] + 1 > desc.maxLength then desc.maxLength else p.dl[d] + 1
    requires q.overflow == p.overflow + if p.dl[d] + 1 > desc.maxLength then 2 else 0
    requires At(freq, d) == At(freq, n) + At(freq, m)
    ensures Priced(freq, q, Split(s, d, n, m), made + At(freq, d))
  {
    hide Over;
    if q.overflow == 0 {
      SplitSum(s, p.dl, Costs(freq, p.dl), Costs(freq, q.dl), d, n, m);
      var f, g, l := At(freq, n), At(freq, m), p.dl[d];
      MulAdd(f, g, l);
      MulAdd(l, 1, f);
      MulAdd(l, 1, g);
      CostsOf(freq, p.dl, q.dl, d, n, m, f, g, l);
    }
  }

  lemma CostsOf(freq: seq<nat>, dl: seq<nat>, dl': seq<nat>, d: nat, n: nat, m: nat, f: nat, g: nat, l: nat)
    requires d < |dl| && n < |dl'| && m < |dl'| && dl[d] == l && dl'[n] == l + 1 == dl'[m]
    requires f == At(freq, n) && g == At(freq, m) && At(freq, d) == f + g
    ensures CostAt(freq, dl', n) + CostAt(freq, dl', m) == CostAt(freq, dl, d) + f + g
  {
    MulAdd(f, g, l);
    assert CostAt(freq, dl', n) == f * (l + 1) == f * l + f;
    assert CostAt(freq, dl', m) == g * (l + 1) == g * l + g;
    assert CostAt(freq, dl, d) == (f + g) * l;
  }

  // ------------------------------------------------------------ the whole pass

  ghost predicate Sound(desc: Desc, freq: seq<nat>, p: Pass, s: set<nat>, opt0: int, stat0: int, made: nat) {
    && InRange(desc, p.dl, s) && Filled(desc, p, s) && Counted(desc, p, s)
    && Billed(desc, freq, p, s, opt0, stat0) && Priced(freq, p, s, made)
  }

  lemma SplitSound(desc: Desc, freq: seq<nat>, p: Pass, s: set<nat>, opt0: int, stat0: int, made: nat, d: nat, n: nat, m: nat)
    requires Sound(desc, freq, p, s, opt0, stat0, made) && Splits(s, p.dl, d, n, m) && desc.elems <= d
    requires At(freq, d) == At(freq, n) + At(freq, m)
    ensures Sound(desc, freq, SetNode(desc, freq, SetNode(desc, freq, p, m), n), Split(s, d, n, m), opt0, stat0, made + At(freq, d))
  {
    hide SetNode, Filled, Counted, Billed, Priced, Split, BillAt, StaticAt, LeafAt, Both;
    var q := SetNode(desc, freq, SetNode(desc, freq, p, m), n);
    var b := PairLengths(desc, freq, p, s, d, n, m);
    LimitOf(desc, p, s);
    SplitRange(desc, p.dl, s, d, n, m, b);
    SplitFilled(desc, p, q, s, d, n, m, b);
    SplitCounted(desc, p, q, s, d, n, m, b);
    SplitBilled(desc, freq, p, q, s, opt0, stat0, d, n, m, b);
    SplitPriced(desc, freq, p, q, s, made, d, n, m, b);
  }

  lemma LimitOf(desc: Desc, p: Pass, s: set<nat>)
    requires Filled(desc, p, s) && Counted(desc, p, s)
    ensures 1 <= desc.maxLength <= 15 && |p.counts| == 16
  {}

  lemma {:induction false} AssignSound(desc: Desc, freq: seq<nat>, leaves: set<nat>, merges: seq<Pair>, p: Pass, opt0: int, stat0: int, made: nat)
    requires GoodMerges(freq, leaves, desc.elems, merges) && Symbols(leaves, desc.elems)
    requires Dads(p.dl, desc.elems, merges) && desc.elems + |merges| <= |p.dl| && desc.elems + |merges| <= |freq|
    requires Sound(desc, freq, p, Frontier(leaves, desc.elems, merges), opt0, stat0, made)
    ensures Sound(desc, freq, Assign(desc, freq, p, Order(merges)), leaves, opt0, stat0,
                  made + MadeFrom(freq, desc.elems, 0, |merges|))
    decreases |merges|
  {
    hide Sound, SetNode, Lightest, Order, Assign, Both;
    if merges == [] {
      NothingAssigned(desc, freq, p);
    } else {
      var s, d, pair := Frontier(leaves, desc.elems, merges), desc.elems + |merges| - 1, Last(merges);
      FrontierStep(freq, leaves, desc.elems, merges);
      LastDads(p.dl, desc.elems, merges);
      SplitSound(desc, freq, p, s, opt0, stat0, made, d, pair.n, pair.m);
      var q := SetNode(desc, freq, SetNode(desc, freq, p, pair.m), pair.n);
      PairElsewhere(desc, freq, p, pair.n, pair.m);
      DadsEarlier(freq, leaves, desc.elems, merges, p.dl, q.dl);
      AssignSound(desc, freq, leaves, Earlier(merges), q, opt0, stat0, made + At(freq, d));
      AssignPair(desc, freq, p, merges);
      MadeLast(freq, desc.elems, 0, |merges|);
    }
  }

  lemma NothingAssigned(desc: Desc, freq: seq<nat>, p: Pass)
    ensures Assign(desc, freq, p, Order([])) == p
  {}

  lemma LastDads(dl: seq<nat>, elems: nat, merges: seq<Pair>)
    requires merges != [] && Dads(dl, elems, merges)
    ensures At(dl, Last(merges).n) == elems + |merges| - 1 == At(dl, Last(merges).m)
  {}

  lemma PairElsewhere(desc: Desc, freq: seq<nat>, p: Pass, n: nat, m: nat)
    ensures var q := SetNode(desc, freq, SetNode(desc, freq, p, m), n);
            |q.dl| == |p.dl| && forall x | 0 <= x < |p.dl| && x != n && x != m :: q.dl[x] == p.dl[x]
  {}

  // At the root there is one node, of length 0.
  lemma RootSound(desc: Desc, freq: seq<nat>, p: Pass, root: nat)
    requires 1 <= desc.maxLength <= 15 && desc.elems <= root < |p.dl| && p.dl[root] == 0 && p.overflow == 0
    requires p.counts == seq(16, _ => 0)
    ensures Sound(desc, freq, p, {root}, p.opt, p.stat, 0)
  {
    OverOne(Spaces(p.dl, desc.maxLength), root);
    OverOne(Spaces(p.dl, desc.maxLength - 1), root);
    OverOne(Bills(desc, freq, p.dl), root);
    OverOne(StaticBills(desc, freq, |p.dl|), root);
    OverOne(Costs(freq, p.dl), root);
    forall b | 0 <= b < 16 ensures p.counts[b] == Over({root}, Leaves(desc, p.dl, b)) {
      OverOne(Leaves(desc, p.dl, b), root);
    }
    assert Pow2(15) == 32768;
    hide Over;
    assert Filled(desc, p, {root});
  }

  // The pass over a finished tree.
  lemma TreeSound(desc: Desc, freq: seq<nat>, leaves: set<nat>, merges: seq<Pair>, p: Pass)
    requires GoodMerges(freq, leaves, desc.elems, merges) && Symbols(leaves, desc.elems) && |leaves| == |merges| + 1 >= 2
    requires desc.elems + |merges| <= |p.dl| && desc.elems + |merges| <= |freq| && Dads(p.dl, desc.elems, merges)
    requires 1 <= desc.maxLength <= 15 && p.dl[desc.elems + |merges| - 1] == 0 && p.overflow == 0 && p.counts == seq(16, _ => 0)
    ensures Sound(desc, freq, Assign(desc, freq, p, Order(merges)), leaves, p.opt, p.stat, MergeCost(WeightsOver(leaves, freq)))
  {
    hide Sound, GoodMerges, Assign, Order, MergeCost, Frontier, Dads, WeightsOver, MadeFrom, Symbols;
    var root := desc.elems + |merges| - 1;
    OnlyRoot(freq, leaves, desc.elems, merges);
    RootSound(desc, freq, p, root);
    AssignSound(desc, freq, leaves, merges, p, p.opt, p.stat, 0);
    MadeIsLeast(freq, leaves, desc.elems, merges, |merges|);
    OneLeft(freq, {root});
  }

  lemma OnlyRoot(freq: seq<nat>, leaves: set<nat>, elems: nat, merges: seq<Pair>)
    requires GoodMerges(freq, leaves, elems, merges) && Symbols(leaves, elems) && |leaves| == |merges| + 1 >= 2
    ensures Frontier(leaves, elems, merges) == {elems + |merges| - 1}
  {
    hide GoodMerges, Frontier;
    var s, root := Frontier(leaves, elems, merges), elems + |merges| - 1;
    FrontierSize(freq, leaves, elems, merges);
    FrontierStep(freq, leaves, elems, merges);
    assert |s - {root}| == 0;
  }

  // ------------------------------------------------------------ the list

  predicate NoneTwice(list: seq<nat>) {
    forall i, j | 0 <= i < j < |list| :: list[i] != list[j]
  }

  lemma {:induction false} OrderHas(merges: seq<Pair>, x: nat)
    requires x in Order(merges)
    ensures exists j | 0 <= j < |merges| :: x == merges[j].n || x == merges[j].m
    decreases |merges|
  {
    if merges != [] {
      var e := Earlier(merges);
      if x == Last(merges).n || x == Last(merges).m {
        assert merges[|merges| - 1] == Last(merges);
      } else {
        assert x in Order(e);
        OrderHas(e, x);
        var j :| 0 <= j < |e| && (x == e[j].n || x == e[j].m);
        assert merges[j] == e[j];
      }
    }
  }

  // Every node is listed once, so each still holds its parent when it is reached.
  lemma {:induction false} OrderOnce(freq: seq<nat>, leaves: set<nat>, elems: nat, merges: seq<Pair>)
    requires GoodMerges(freq, leaves, elems, merges) && Symbols(leaves, elems)
    ensures NoneTwice(Order(merges))
    decreases |merges|
  {
    if merges != [] {
      var e, p := Earlier(merges), Last(merges);
      OrderOnce(freq, leaves, elems, e);
      FrontierStep(freq, leaves, elems, merges);
      forall x | x in Order(e) ensures x != p.n && x != p.m {
        OrderHas(e, x);
        var j :| 0 <= j < |e| && (x == e[j].n || x == e[j].m);
        MergedIsGone(freq, leaves, elems, e, j);
      }
      TwoMore(p.m, p.n, Order(e));
    }
  }

  lemma TwoMore(x: nat, y: nat, list: seq<nat>)
    requires x != y && x !in list && y !in list && NoneTwice(list)
    ensures NoneTwice([x, y] + list)
  {
    var l := [x, y] + list;
    forall i, j | 0 <= i < j < |l| ensures l[i] != l[j] {
      if i >= 2 { assert list[i - 2] != list[j - 2]; } else if j >= 2 { assert list[j - 2] in list; }
    }
  }
}
