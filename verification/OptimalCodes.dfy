// The lengths build_tree leaves, read as a prefix code: complete, counted right, and no
// costlier than any other.

module OptimalCodes {
  import opened Powers
  import opened Canonical
  import opened HuffmanCost
  import opened HuffmanMerges
  import opened TreeCodes
  import opened TreeLengths
  import opened PrefixCodes

  // The bits a code of these lengths takes for text with these frequencies.
  function TotalBits(freq: seq<nat>, lens: seq<nat>, k: nat): nat {
    if k == 0 then 0 else TotalBits(freq, lens, k - 1) + At(freq, k - 1) * At(lens, k - 1)
  }

  function AddWord(s: seq<seq<bool>>, f: nat, w: seq<bool>): seq<seq<bool>> {
    if f > 0 then s + [w] else s
  }

  // The code words of the symbols that occur.
  function Chosen(freq: seq<nat>, words: seq<seq<bool>>, k: nat): seq<seq<bool>>
    requires k <= |words|
  {
    if k == 0 then [] else AddWord(Chosen(freq, words, k - 1), At(freq, k - 1), words[k - 1])
  }

  function WordLengths(words: seq<seq<bool>>): (lens: seq<nat>)
    ensures |lens| == |words| && forall i | 0 <= i < |words| :: lens[i] == |words[i]|
  {
    seq(|words|, i requires 0 <= i < |words| => |words[i]|)
  }

  // No prefix code does better.
  ghost predicate Cheapest(freq: seq<nat>, lens: seq<nat>) {
    forall words: seq<seq<bool>> | |words| == |lens| && NoPrefixes(Chosen(freq, words, |words|)) ::
      TotalBits(freq, lens, |lens|) <= TotalBits(freq, WordLengths(words), |words|)
  }

  // ------------------------------------------------------------ items of a code

  function AddItem(s: seq<Item>, f: nat, l: nat): seq<Item> {
    if f > 0 then s + [Item(f, l)] else s
  }

  function Items(freq: seq<nat>, lens: seq<nat>, k: nat): seq<Item> {
    if k == 0 then [] else AddItem(Items(freq, lens, k - 1), At(freq, k - 1), At(lens, k - 1))
  }

  lemma AppendTail<T>(s: seq<T>, x: T)
    ensures s == [] ==> (s + [x])[1..] == []
    ensures s != [] ==> (s + [x])[0] == s[0] && (s + [x])[1..] == s[1..] + [x]
  {}

  lemma {:induction false} CostAppend(s: seq<Item>, x: Item)
    ensures Cost(s + [x]) == Cost(s) + Share(x)
  {
    hide Share;
    AppendTail(s, x);
    if s != [] { CostAppend(s[1..], x); }
  }

  lemma {:induction false} WeightsAppend(s: seq<Item>, x: Item)
    ensures Weights(s + [x]) == Weights(s) + multiset{x.w}
  {
    AppendTail(s, x);
    if s != [] { WeightsAppend(s[1..], x); }
  }

  lemma {:induction false} RoomAppend(s: seq<Item>, x: Item, m: nat)
    ensures Room(s + [x], m) == Room(s, m) + if x.len <= m then Pow2(m - x.len) else 0
  {
    hide Pow2;
    AppendTail(s, x);
    if s != [] { RoomAppend(s[1..], x, m); }
  }

  lemma {:induction false} WordsAppend(words: seq<seq<bool>>, w: seq<bool>, m: nat)
    ensures WordRoom(words + [w], m) == WordRoom(words, m) + if |w| <= m then Pow2(m - |w|) else 0
  {
    hide Pow2;
    AppendTail(words, w);
    if words != [] { WordsAppend(words[1..], w, m); }
  }

  lemma {:induction false} ItemsCost(freq: seq<nat>, lens: seq<nat>, k: nat)
    ensures Cost(Items(freq, lens, k)) == TotalBits(freq, lens, k)
  {
    if k > 0 {
      hide Cost;
      ItemsCost(freq, lens, k - 1);
      CostAppend(Items(freq, lens, k - 1), Item(At(freq, k - 1), At(lens, k - 1)));
    } else {
      assert Cost([]) == 0;
    }
  }

  lemma WeightsOverStep(leaves: set<nat>, freq: seq<nat>, k: nat)
    requires 0 < k <= |freq|
    ensures WeightsOver(leaves, freq[..k]) ==
            WeightsOver(leaves, freq[..k - 1]) + if k - 1 in leaves then multiset{freq[k - 1]} else multiset{}
  {
    assert freq[..k][..k - 1] == freq[..k - 1];
  }

  lemma {:induction false} ItemsWeights(freq: seq<nat>, lens: seq<nat>, k: nat, leaves: set<nat>)
    requires k <= |freq| && forall i | 0 <= i < |freq| :: i in leaves <==> freq[i] > 0
    ensures Weights(Items(freq, lens, k)) == WeightsOver(leaves, freq[..k])
  {
    hide Weights, WeightsOver;
    if k > 0 {
      ItemsWeights(freq, lens, k - 1, leaves);
      WeightsOverStep(leaves, freq, k);
      WeightsAppend(Items(freq, lens, k - 1), Item(freq[k - 1], At(lens, k - 1)));
    } else {
      NoWeights(leaves, freq);
    }
  }

  lemma NoWeights(leaves: set<nat>, freq: seq<nat>)
    ensures Weights([]) == multiset{} == WeightsOver(leaves, freq[..0])
  {}

  lemma {:induction false} ItemsRoom(freq: seq<nat>, words: seq<seq<bool>>, k: nat, m: nat)
    requires k <= |words| && AtMost(words, m)
    ensures Room(Items(freq, WordLengths(words), k), m) == WordRoom(Chosen(freq, words, k), m)
    ensures Within(Items(freq, WordLengths(words), k), m) && AtMost(Chosen(freq, words, k), m)
  {
    hide Pow2, Room, WordRoom;
    if k > 0 {
      ItemsRoom(freq, words, k - 1, m);
      RoomAppend(Items(freq, WordLengths(words), k - 1), Item(At(freq, k - 1), |words[k - 1]|), m);
      WordsAppend(Chosen(freq, words, k - 1), words[k - 1], m);
    } else {
      NoRoom(m);
    }
  }

  lemma NoRoom(m: nat)
    ensures Room([], m) == 0 == WordRoom([], m)
  {}

  lemma {:induction false} LongestWord(words: seq<seq<bool>>) returns (m: nat)
    ensures AtMost(words, m)
  {
    if words == [] {
      m := 0;
    } else {
      var k := LongestWord(words[1..]);
      m := if |words[0]| > k then |words[0]| else k;
      forall i | 0 <= i < |words| ensures |words[i]| <= m {
        if i > 0 { assert |words[1..][i - 1]| <= k; }
      }
    }
  }

  // Every prefix code costs at least what merging costs.
  lemma WordsCost(freq: seq<nat>, words: seq<seq<bool>>, leaves: set<nat>)
    requires |words| == |freq| && NoPrefixes(Chosen(freq, words, |words|)) && leaves != {}
    requires (forall x | x in leaves :: x < |freq|) && forall i | 0 <= i < |freq| :: i in leaves <==> freq[i] > 0
    ensures MergeCost(WeightsOver(leaves, freq)) <= TotalBits(freq, WordLengths(words), |words|)
  {
    hide NoPrefixes, MergeCost, Room, Cost, Weights, WeightsOver, TotalBits, Pow2, Items, Chosen;
    var m := LongestWord(words);
    var k, lens := |words|, WordLengths(words);
    ItemsRoom(freq, words, k, m);
    KraftInequality(Chosen(freq, words, k), m);
    ItemsWeights(freq, lens, k, leaves);
    assert freq[..k] == freq;
    ItemsCost(freq, lens, k);
    SomeItem(freq, lens, k, leaves);
    MergeIsLeast(Items(freq, lens, k), m);
  }

  lemma {:induction false} ItemsMany(freq: seq<nat>, lens: seq<nat>, k: nat, i: nat)
    requires i < k && At(freq, i) > 0
    ensures |Items(freq, lens, k)| >= 1
  {
    if i < k - 1 { ItemsMany(freq, lens, k - 1, i); }
  }

  lemma SomeItem(freq: seq<nat>, lens: seq<nat>, k: nat, leaves: set<nat>)
    requires k == |freq| && leaves != {} && (forall x | x in leaves :: x < |freq| && freq[x] > 0)
    ensures |Items(freq, lens, k)| >= 1
  {
    var x :| x in leaves;
    ItemsMany(freq, lens, k, x);
  }

  // ------------------------------------------------------------ sums over the leaves

  lemma {:induction false} OverPrefix(s: set<nat>, g: seq<int>, n: nat)
    requires n <= |g| && forall x | x in s :: x < n
    ensures Over(s, g) == Over(s, g[..n])
    decreases |g|
  {
    if n < |g| {
      OverPrefix(s, g[..|g| - 1], n);
      assert g[..|g| - 1][..n] == g[..n];
    } else {
      assert g[..n] == g;
    }
  }

  lemma {:induction false} WeightsPrefix(s: set<nat>, freq: seq<nat>, n: nat)
    requires n <= |freq| && forall x | x in s :: x < n
    ensures WeightsOver(s, freq) == WeightsOver(s, freq[..n])
    decreases |freq|
  {
    if n < |freq| {
      WeightsPrefix(s, freq[..|freq| - 1], n);
      assert freq[..|freq| - 1][..n] == freq[..n];
    } else {
      assert freq[..n] == freq;
    }
  }

  // lens are the first lengths of dl, and the leaves the symbols that have one.
  ghost predicate CodeOf(lens: seq<bitlen>, dl: seq<nat>, freq: seq<nat>, leaves: set<nat>) {
    && |lens| <= |dl| == |freq| && (forall i | 0 <= i < |lens| :: lens[i] == dl[i])
    && (forall x | x in leaves :: x < |lens|) && (forall i | 0 <= i < |lens| :: i in leaves <==> lens[i] > 0)
    && (forall i | 0 <= i < |lens| :: i in leaves <==> freq[i] > 0)
  }

  lemma {:induction false} CountOver(desc: Desc, lens: seq<bitlen>, dl: seq<nat>, freq: seq<nat>, leaves: set<nat>, l: nat, k: nat)
    requires CodeOf(lens, dl, freq, leaves) && 1 <= l && k <= |lens| <= desc.elems
    ensures Over(leaves, Leaves(desc, dl, l)[..k]) == Count(lens, k, l)
  {
    if k > 0 {
      CountOver(desc, lens, dl, freq, leaves, l, k - 1);
      var g := Leaves(desc, dl, l);
      assert g[..k][..k - 1] == g[..k - 1];
    }
  }

  lemma {:induction false} KraftOver(lens: seq<bitlen>, dl: seq<nat>, freq: seq<nat>, leaves: set<nat>, max: nat, k: nat)
    requires CodeOf(lens, dl, freq, leaves) && max <= 15 && k <= |lens| && forall i | 0 <= i < |lens| :: lens[i] <= max
    ensures Over(leaves, Spaces(dl, max)[..k]) == Below(lens, k, 16, 0)
  {
    if k > 0 {
      KraftOver(lens, dl, freq, leaves, max, k - 1);
      var g := Spaces(dl, max);
      assert g[..k][..k - 1] == g[..k - 1];
    }
  }

  lemma {:induction false} CostOver(lens: seq<bitlen>, dl: seq<nat>, freq: seq<nat>, leaves: set<nat>, k: nat)
    requires CodeOf(lens, dl, freq, leaves) && k <= |lens|
    ensures Over(leaves, Costs(freq, dl)[..k]) == TotalBits(freq[..|lens|], lens, k)
  {
    if k > 0 {
      CostOver(lens, dl, freq, leaves, k - 1);
      var g := Costs(freq, dl);
      assert g[..k][..k - 1] == g[..k - 1];
    }
  }

  // The bits of all symbols with their extra bits, with these lengths and with the static ones.
  function BillTotal(desc: Desc, freq: seq<nat>, lens: seq<nat>, k: nat): nat {
    if k == 0 then 0 else BillTotal(desc, freq, lens, k - 1) + Bill(desc, At(freq, k - 1), k - 1, At(lens, k - 1))
  }

  function StaticTotal(desc: Desc, freq: seq<nat>, k: nat): nat {
    if k == 0 then 0 else StaticTotal(desc, freq, k - 1) + StaticBill(desc, At(freq, k - 1), k - 1)
  }

  // The static total is the bill with the static lengths.
  lemma {:induction false} StaticIsBill(desc: Desc, freq: seq<nat>, k: nat)
    requires desc.staticLens != []
    ensures StaticTotal(desc, freq, k) == BillTotal(desc, freq, desc.staticLens, k)
  {
    if k > 0 { StaticIsBill(desc, freq, k - 1); }
  }

  lemma FreeBill(desc: Desc, n: nat, len: nat)
    ensures Bill(desc, 0, n, len) == 0 && StaticBill(desc, 0, n) == 0
  {}

  lemma {:induction false} BillOver(desc: Desc, lens: seq<bitlen>, dl: seq<nat>, freq: seq<nat>, leaves: set<nat>, k: nat)
    requires CodeOf(lens, dl, freq, leaves) && k <= |lens| <= desc.elems
    ensures Over(leaves, Bills(desc, freq, dl)[..k]) == BillTotal(desc, freq[..|lens|], lens, k)
    ensures Over(leaves, StaticBills(desc, freq, |dl|)[..k]) == StaticTotal(desc, freq[..|lens|], k)
  {
    hide Bill, StaticBill;
    if k > 0 {
      BillOver(desc, lens, dl, freq, leaves, k - 1);
      var g, h := Bills(desc, freq, dl), StaticBills(desc, freq, |dl|);
      assert g[..k][..k - 1] == g[..k - 1];
      assert h[..k][..k - 1] == h[..k - 1];
      FreeBill(desc, k - 1, lens[k - 1]);
    }
  }

  // Lengths that cost what merging costs are the cheapest.
  lemma CheapestCode(lens: seq<bitlen>, dl: seq<nat>, freq: seq<nat>, leaves: set<nat>)
    requires CodeOf(lens, dl, freq, leaves) && leaves != {}
    requires Over(leaves, Costs(freq, dl)) == MergeCost(WeightsOver(leaves, freq))
    ensures Cheapest(freq[..|lens|], lens)
  {
    hide MergeCost, WeightsOver, Over, TotalBits, NoPrefixes;
    var n, f := |lens|, freq[..|lens|];
    OverPrefix(leaves, Costs(freq, dl), n);
    CostOver(lens, dl, freq, leaves, n);
    WeightsPrefix(leaves, freq, n);
    forall words: seq<seq<bool>> | |words| == n && NoPrefixes(Chosen(f, words, |words|))
      ensures TotalBits(f, lens, n) <= TotalBits(f, WordLengths(words), |words|)
    {
      WordsCost(f, words, leaves);
    }
  }

  // ------------------------------------------------------------ rarer symbols get longer words

  // A more frequent symbol never has a longer word.
  predicate RarerLens(freq: seq<nat>, lens: seq<nat>)
    requires |freq| == |lens|
  {
    forall x, y | 0 <= x < |lens| && 0 <= y < |lens| && 0 < freq[x] < freq[y] :: lens[y] <= lens[x]
  }

  lemma {:induction false} TotalUpdate(freq: seq<nat>, lens: seq<nat>, i: nat, v: nat, k: nat)
    requires i < |lens|
    ensures TotalBits(freq, lens[i := v], k) == TotalBits(freq, lens, k) + if i < k then At(freq, i) * v - At(freq, i) * lens[i] else 0
  {
    if k > 0 { TotalUpdate(freq, lens, i, v, k - 1); }
  }

  function Unit(len: nat, m: nat): nat { if len <= m then Pow2(m - len) else 0 }

  lemma RoomOne(freq: seq<nat>, lens: seq<nat>, k: nat, m: nat)
    requires k > 0
    ensures Room(Items(freq, lens, k), m) == Room(Items(freq, lens, k - 1), m) + if At(freq, k - 1) > 0 then Unit(At(lens, k - 1), m) else 0
  {
    hide Room, Pow2;
    RoomAppend(Items(freq, lens, k - 1), Item(At(freq, k - 1), At(lens, k - 1)), m);
  }

  lemma {:induction false} RoomUpdate(freq: seq<nat>, lens: seq<nat>, i: nat, v: nat, k: nat, m: nat)
    requires i < |lens| && At(freq, i) > 0
    ensures Room(Items(freq, lens[i := v], k), m) == Room(Items(freq, lens, k), m) + if i < k then Unit(v, m) - Unit(lens[i], m) else 0
  {
    hide Room, Unit, Items;
    if k > 0 {
      RoomUpdate(freq, lens, i, v, k - 1, m);
      RoomOne(freq, lens, k, m);
      RoomOne(freq, lens[i := v], k, m);
    } else {
      NoItems(freq, lens);
      NoItems(freq, lens[i := v]);
    }
  }

  lemma NoItems(freq: seq<nat>, lens: seq<nat>)
    ensures Items(freq, lens, 0) == []
  {}

  lemma {:induction false} ItemsWithin(freq: seq<nat>, lens: seq<nat>, k: nat, m: nat)
    requires forall i | 0 <= i < |lens| :: lens[i] <= m
    ensures Within(Items(freq, lens, k), m)
  {
    if k > 0 { ItemsWithin(freq, lens, k - 1, m); }
  }

  lemma {:induction false} ItemsKraft(freq: seq<nat>, lens: seq<bitlen>, k: nat)
    requires |freq| == |lens| && k <= |lens| && forall i | 0 <= i < |lens| :: freq[i] > 0 <==> lens[i] > 0
    ensures Room(Items(freq, lens, k), 15) == Below(lens, k, 16, 0)
  {
    hide Room, Items;
    if k > 0 {
      ItemsKraft(freq, lens, k - 1);
      RoomOne(freq, lens, k, 15);
    } else {
      NoItems(freq, lens);
      EmptyRoom();
    }
  }

  lemma EmptyRoom()
    ensures Room([], 15) == 0
  {}

  lemma Trade(f: nat, g: nat, l: nat, m: nat)
    requires f < g && l < m
    ensures f * m + g * l < f * l + g * m
  {
    MulMono(1, g - f, m - l);
    assert g * m - g * l == g * (m - l) && f * m - f * l == f * (m - l);
    assert (g - f) * (m - l) == g * (m - l) - f * (m - l);
  }

  // Otherwise two symbols could trade words.
  lemma CheapestRarer(freq: seq<nat>, lens: seq<bitlen>, leaves: set<nat>, x: nat, y: nat)
    requires |freq| == |lens| && forall i | 0 <= i < |lens| :: freq[i] > 0 <==> lens[i] > 0
    requires (forall i | 0 <= i < |freq| :: i in leaves <==> freq[i] > 0) && forall i | i in leaves :: i < |freq|
    requires Kraft(lens) <= Pow2(15) && TotalBits(freq, lens, |lens|) == MergeCost(WeightsOver(leaves, freq))
    requires x < |lens| && y < |lens| && 0 < freq[x] < freq[y]
    ensures lens[y] <= lens[x]
  {
    hide MergeCost, WeightsOver, TotalBits, Room, Cost, Weights, Items, Unit, Below, Pow2;
    if lens[x] < lens[y] {
      var n := |lens|;
      var once: seq<nat> := lens;
      once := once[x := lens[y]];
      var swapped := once[y := lens[x]];
      TotalUpdate(freq, lens, x, lens[y], n);
      TotalUpdate(freq, once, y, lens[x], n);
      RoomUpdate(freq, lens, x, lens[y], n, 15);
      RoomUpdate(freq, once, y, lens[x], n, 15);
      ItemsKraft(freq, lens, n);
      ItemsWithin(freq, swapped, n, 15);
      ItemsWeights(freq, swapped, n, leaves);
      assert freq[..n] == freq;
      ItemsCost(freq, swapped, n);
      ItemsMany(freq, swapped, n, x);
      MergeIsLeast(Items(freq, swapped, n), 15);
      Trade(freq[x], freq[y], lens[x], lens[y]);
    }
  }

  lemma CheapestRarerLens(lens: seq<bitlen>, dl: seq<nat>, freq: seq<nat>, leaves: set<nat>)
    requires CodeOf(lens, dl, freq, leaves) && Kraft(lens) <= Pow2(15)
    requires Over(leaves, Costs(freq, dl)) == MergeCost(WeightsOver(leaves, freq))
    ensures RarerLens(freq[..|lens|], lens)
  {
    hide MergeCost, WeightsOver, Over, TotalBits, Kraft, Pow2;
    var n, f := |lens|, freq[..|lens|];
    OverPrefix(leaves, Costs(freq, dl), n);
    CostOver(lens, dl, freq, leaves, n);
    WeightsPrefix(leaves, freq, n);
    forall x, y | 0 <= x < n && 0 <= y < n && 0 < f[x] < f[y] ensures lens[y] <= lens[x] {
      CheapestRarer(f, lens, leaves, x, y);
    }
  }
}
