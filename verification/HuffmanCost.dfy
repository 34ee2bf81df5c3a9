// The least any prefix code can cost: repeatedly merging the two smallest weights. Any
// code lengths that satisfy the Kraft inequality cost at least that.

module HuffmanCost {
  import opened Powers

  // ------------------------------------------------------------ merging weights

  ghost predicate IsLeast(w: multiset<nat>, a: nat) {
    a in w && forall x | x in w :: a <= x
  }

  lemma {:induction false} HasLeast(w: multiset<nat>)
    requires |w| > 0
    ensures exists a :: IsLeast(w, a)
    decreases |w|
  {
    var y :| y in w;
    var v := w - multiset{y};
    if |v| == 0 {
      assert w == multiset{y};
      assert IsLeast(w, y);
    } else {
      HasLeast(v);
      var b :| IsLeast(v, b);
      var a := if y < b then y else b;
      forall x | x in w ensures a <= x {
        if x != y { assert x in v; }
      }
      assert IsLeast(w, a);
    }
  }

  ghost function Least(w: multiset<nat>): (a: nat)
    requires |w| > 0
    ensures IsLeast(w, a)
  {
    HasLeast(w);
    var a: nat :| IsLeast(w, a);
    a
  }

  lemma LeastIs(w: multiset<nat>, a: nat)
    requires IsLeast(w, a)
    ensures Least(w) == a
  {}

  function Merged(w: multiset<nat>, a: nat, b: nat): (v: multiset<nat>)
    ensures a in w && b in w - multiset{a} ==> |v| == |w| - 1
  {
    w - multiset{a} - multiset{b} + multiset{a + b}
  }

  // The total of all sums made by merging the two least until one is left.
  ghost function MergeCost(w: multiset<nat>): nat
    decreases |w|
  {
    if |w| < 2 then 0
    else
      var a := Least(w);
      var b := Least(w - multiset{a});
      a + b + MergeCost(Merged(w, a, b))
  }

  // ------------------------------------------------------------ weighted lengths

  datatype Item = Item(w: nat, len: nat)

  function Share(x: Item): nat { x.w * x.len }

  function Cost(s: seq<Item>): nat {
    if s == [] then 0 else Share(s[0]) + Cost(s[1..])
  }

  // The Kraft sum in units of 2^-m.
  function Room(s: seq<Item>, m: nat): nat {
    if s == [] then 0 else (if s[0].len <= m then Pow2(m - s[0].len) else 0) + Room(s[1..], m)
  }

  function Weights(s: seq<Item>): multiset<nat> {
    if s == [] then multiset{} else multiset{s[0].w} + Weights(s[1..])
  }

  function Lengths(s: seq<Item>): nat {
    if s == [] then 0 else s[0].len + Lengths(s[1..])
  }

  predicate Within(s: seq<Item>, m: nat) {
    forall i | 0 <= i < |s| :: s[i].len <= m
  }

  // All but item i.
  function Without(s: seq<Item>, i: nat): (r: seq<Item>)
    requires i < |s|
    ensures |r| == |s| - 1
  {
    s[..i] + s[i + 1..]
  }

  lemma WithoutLater(s: seq<Item>, i: nat)
    requires 0 < i < |s|
    ensures Without(s, i)[0] == s[0] && Without(s, i)[1..] == Without(s[1..], i - 1)
    ensures s[1..][i - 1] == s[i]
  {}

  lemma WithoutFirst(s: seq<Item>)
    requires |s| > 0
    ensures Without(s, 0) == s[1..]
  {}

  lemma {:induction false} CostRemoved(s: seq<Item>, i: nat)
    requires i < |s|
    ensures Cost(s) == Cost(Without(s, i)) + Share(s[i])
    decreases i
  {
    hide Without;
    if i == 0 { WithoutFirst(s); } else { WithoutLater(s, i); CostRemoved(s[1..], i - 1); }
  }

  lemma {:induction false} RoomRemoved(s: seq<Item>, i: nat, m: nat)
    requires i < |s|
    ensures Room(s, m) == Room(Without(s, i), m) + if s[i].len <= m then Pow2(m - s[i].len) else 0
    decreases i
  {
    hide Without, Pow2;
    if i == 0 { WithoutFirst(s); } else { WithoutLater(s, i); RoomRemoved(s[1..], i - 1, m); }
  }

  lemma {:induction false} WeightsRemoved(s: seq<Item>, i: nat)
    requires i < |s|
    ensures Weights(s) == Weights(Without(s, i)) + multiset{s[i].w}
    decreases i
  {
    hide Without;
    if i == 0 { WithoutFirst(s); } else { WithoutLater(s, i); WeightsRemoved(s[1..], i - 1); }
  }

  lemma {:induction false} LengthsRemoved(s: seq<Item>, i: nat)
    requires i < |s|
    ensures Lengths(s) == Lengths(Without(s, i)) + s[i].len
    decreases i
  {
    hide Without;
    if i == 0 { WithoutFirst(s); } else { WithoutLater(s, i); LengthsRemoved(s[1..], i - 1); }
  }

  lemma Removed(s: seq<Item>, i: nat, m: nat)
    requires i < |s| && Within(s, m)
    ensures Cost(s) == Cost(Without(s, i)) + Share(s[i])
    ensures Room(s, m) == Room(Without(s, i), m) + Pow2(m - s[i].len)
    ensures Weights(s) == Weights(Without(s, i)) + multiset{s[i].w}
    ensures Lengths(s) == Lengths(Without(s, i)) + s[i].len
    ensures Within(Without(s, i), m)
  {
    hide Cost, Room, Weights, Lengths, Pow2, Share;
    CostRemoved(s, i);
    RoomRemoved(s, i, m);
    WeightsRemoved(s, i);
    LengthsRemoved(s, i);
  }

  lemma Updated(s: seq<Item>, i: nat, x: Item, m: nat)
    requires i < |s| && Within(s, m) && x.len <= m
    ensures Cost(s[i := x]) + Share(s[i]) == Cost(s) + Share(x)
    ensures Room(s[i := x], m) + Pow2(m - s[i].len) == Room(s, m) + Pow2(m - x.len)
    ensures Weights(s[i := x]) + multiset{s[i].w} == Weights(s) + multiset{x.w}
    ensures Lengths(s[i := x]) + s[i].len == Lengths(s) + x.len
    ensures Within(s[i := x], m)
  {
    hide Cost, Room, Weights, Lengths, Pow2, Share;
    Removed(s, i, m);
    Removed(s[i := x], i, m);
    assert Without(s[i := x], i) == Without(s, i);
  }

  lemma {:induction false} WeightsSize(s: seq<Item>)
    ensures |Weights(s)| == |s|
  {
    if s != [] { WeightsSize(s[1..]); }
  }

  lemma {:induction false} WeightAt(s: seq<Item>, x: nat) returns (i: nat)
    requires x in Weights(s)
    ensures i < |s| && s[i].w == x
  {
    if x == s[0].w {
      i := 0;
    } else {
      var j := WeightAt(s[1..], x);
      i := j + 1;
    }
  }

  lemma {:induction false} WeightIn(s: seq<Item>, i: nat)
    requires i < |s|
    ensures s[i].w in Weights(s)
    decreases i
  {
    if i > 0 { WeightIn(s[1..], i - 1); }
  }

  // ------------------------------------------------------------ Kraft sums

  lemma {:induction false} RoomScales(s: seq<Item>, l: nat, m: nat)
    requires Within(s, l) && l <= m
    ensures Room(s, m) == Room(s, l) * Pow2(m - l)
  {
    if s != [] {
      RoomScales(s[1..], l, m);
      Pow2Add(l - s[0].len, m - l);
      MulAdd(Pow2(l - s[0].len), Room(s[1..], l), Pow2(m - l));
    }
  }

  lemma {:induction false} RoomEven(s: seq<Item>, l: nat)
    requires l > 0 && Within(s, l - 1)
    ensures Room(s, l) == 2 * Room(s, l - 1)
  {
    if s != [] { RoomEven(s[1..], l); }
  }

  lemma {:induction false} RoomFlat(s: seq<Item>)
    requires Within(s, 0)
    ensures Room(s, 0) == |s|
  {
    if s != [] { RoomFlat(s[1..]); }
  }

  // A Kraft sum of at most one, measured at the greatest length.
  lemma RoomAtMost(s: seq<Item>, l: nat, m: nat)
    requires Within(s, l) && l <= m && Room(s, m) <= Pow2(m)
    ensures Room(s, l) <= Pow2(l)
  {
    hide Pow2, Room;
    RoomScales(s, l, m);
    Pow2Split(l, m);
    MulCancel(Room(s, l), Pow2(l), Pow2(m - l));
  }

  lemma {:induction false} Longest(s: seq<Item>) returns (p: nat)
    requires |s| > 0
    ensures p < |s| && Within(s, s[p].len)
  {
    if |s| == 1 {
      p := 0;
    } else {
      var q := Longest(s[1..]);
      p := if s[0].len >= s[q + 1].len then 0 else q + 1;
      forall i | 0 <= i < |s| ensures s[i].len <= s[p].len {
        if i > 0 { assert s[1..][i - 1].len <= s[1..][q].len; }
      }
    }
  }

  // Only a length changes.
  lemma Relength(s: seq<Item>, i: nat, k: nat, m: nat)
    requires i < |s| && Within(s, m) && k <= m
    ensures var x := s[i].(len := k); var r := s[i := x];
            && Cost(r) + Share(s[i]) == Cost(s) + Share(x) && Weights(r) == Weights(s) && Within(r, m)
            && Room(r, m) + Pow2(m - s[i].len) == Room(s, m) + Pow2(m - k)
            && Lengths(r) + s[i].len == Lengths(s) + k
  {
    hide Cost, Room, Weights, Lengths, Pow2, Share;
    var x := s[i].(len := k);
    Updated(s, i, x, m);
    Cancel(Weights(s[i := x]), Weights(s), multiset{s[i].w});
  }

  lemma Cancel(a: multiset<nat>, b: multiset<nat>, c: multiset<nat>)
    requires a + c == b + c
    ensures a == b
  {
    assert a == (a + c) - c;
    assert b == (b + c) - c;
  }

  // ------------------------------------------------------------ exchange

  // Items i and j trade their lengths.
  function Swapped(s: seq<Item>, i: nat, j: nat): (r: seq<Item>)
    requires i < |s| && j < |s|
    ensures |r| == |s|
  {
    s[i := s[i].(len := s[j].len)][j := s[j].(len := s[i].len)]
  }

  lemma TradeGain(w: nat, v: nat, l: nat, k: nat)
    requires w <= v && l <= k
    ensures w * k + v * l <= w * l + v * k
  {
    MulMono(w, v, k - l);
    assert w * k - w * l == w * (k - l);
    assert v * k - v * l == v * (k - l);
  }

  // Giving the longer length to the lighter item does not cost more.
  lemma SwapHelps(s: seq<Item>, i: nat, j: nat, m: nat)
    requires i < |s| && j < |s| && i != j && Within(s, m)
    requires s[i].w <= s[j].w && s[i].len <= s[j].len
    ensures var r := Swapped(s, i, j);
            Cost(r) <= Cost(s) && Room(r, m) == Room(s, m) && Weights(r) == Weights(s) && Within(r, m)
  {
    hide Cost, Room, Weights, Lengths, Pow2;
    Relength(s, i, s[j].len, m);
    Relength(s[i := s[i].(len := s[j].len)], j, s[i].len, m);
    TradeGain(s[i].w, s[j].w, s[i].len, s[j].len);
  }

  // A single longest item can be shortened: the Kraft sum cannot end in an odd unit.
  lemma ShortenHelps(s: seq<Item>, p: nat)
    requires p < |s| && |s| >= 2 && Within(s, s[p].len) && Room(s, s[p].len) <= Pow2(s[p].len)
    requires forall i | 0 <= i < |s| && i != p :: s[i].len < s[p].len
    ensures s[p].len > 0
    ensures var l := s[p].len; var r := s[p := s[p].(len := l - 1)];
            Within(r, l) && Room(r, l) <= Pow2(l) && Cost(r) <= Cost(s) && Weights(r) == Weights(s) && Lengths(r) < Lengths(s)
  {
    hide Cost, Room, Weights, Lengths, Pow2;
    var l := s[p].len;
    OthersShorter(s, p, l);
    var rest := Without(s, p);
    Removed(s, p, l);
    RoomEven(rest, l);
    Doubles(l);
    Relength(s, p, l - 1, l);
    MulMono(l - 1, l, s[p].w);
  }

  lemma Doubles(l: nat)
    requires l > 0
    ensures Pow2(l) == 2 * Pow2(l - 1) && Pow2(l - l) == 1 && Pow2(l - (l - 1)) == 2
  {}

  lemma OthersShorter(s: seq<Item>, p: nat, l: nat)
    requires p < |s| && |s| >= 2 && s[p].len == l
    requires forall i | 0 <= i < |s| && i != p :: s[i].len < l
    ensures l > 0 && Within(Without(s, p), l - 1)
  {
    var rest := Without(s, p);
    assert s[if p == 0 then 1 else 0].len < l;
    forall i | 0 <= i < |rest| ensures rest[i].len <= l - 1 {
      assert rest[i] == s[if i < p then i else i + 1];
    }
  }

  // ------------------------------------------------------------ the lower bound

  // The two lightest items at the greatest length, merged into one a level up.
  lemma MergeItems(s: seq<Item>, a: nat, b: nat, l: nat) returns (t: seq<Item>)
    requires a < |s| && b < |s| && a != b && Within(s, l) && s[a].len == l == s[b].len && l > 0
    ensures |t| == |s| - 1 && Within(t, l) && Room(t, l) == Room(s, l)
    ensures Cost(s) == Cost(t) + s[a].w + s[b].w
    ensures Weights(t) + multiset{s[a].w, s[b].w} == Weights(s) + multiset{s[a].w + s[b].w}
  {
    hide Cost, Room, Weights, Lengths;
    var w, v := s[a].w, s[b].w;
    var x := Item(w + v, l - 1);
    Updated(s, a, x, l);
    Removed(s[a := x], b, l);
    t := Without(s[a := x], b);
    MulAdd(w, v, l - 1);
    MulAdd(l - 1, 1, w);
    MulAdd(l - 1, 1, v);
    assert Share(s[a]) == w * (l - 1) + w;
    assert Share(s[b]) == v * (l - 1) + v;
    assert Share(x) == w * (l - 1) + v * (l - 1);
  }

  // Of two longest items one is not a; trading lengths puts a and b there at no cost.
  lemma BothLongest(s: seq<Item>, a: nat, b: nat, p: nat, q: nat, l: nat) returns (t: seq<Item>)
    requires a < |s| && b < |s| && a != b && p < |s| && q < |s| && p != q && Within(s, l)
    requires s[p].len == l == s[q].len
    requires forall i | 0 <= i < |s| :: s[a].w <= s[i].w && (i != a ==> s[b].w <= s[i].w)
    ensures |t| == |s| && Within(t, l) && t[a].len == l == t[b].len && t[a].w == s[a].w && t[b].w == s[b].w
    ensures Cost(t) <= Cost(s) && Room(t, l) == Room(s, l) && Weights(t) == Weights(s)
  {
    hide Cost, Room, Weights, Lengths, Pow2;
    var s1 := s;
    if a != p {
      SwapHelps(s, a, p, l);
      s1 := Swapped(s, a, p);
    }
    var q' := if q != a then q else p;
    t := s1;
    if b != q' {
      SwapHelps(s1, b, q', l);
      t := Swapped(s1, b, q');
    }
  }

  lemma LightestTwo(s: seq<Item>) returns (a: nat, b: nat)
    requires |s| >= 2
    ensures a < |s| && b < |s| && a != b
    ensures forall i | 0 <= i < |s| :: s[a].w <= s[i].w && (i != a ==> s[b].w <= s[i].w)
    ensures IsLeast(Weights(s), s[a].w) && IsLeast(Weights(s) - multiset{s[a].w}, s[b].w)
  {
    hide MergeCost;
    WeightsSize(s);
    a := WeightAt(s, Least(Weights(s)));
    var r := Without(s, a);
    WeightsRemoved(s, a);
    WeightsSize(r);
    assert Weights(s) - multiset{s[a].w} == Weights(r);
    var b' := WeightAt(r, Least(Weights(r)));
    b := if b' < a then b' else b' + 1;
    forall i | 0 <= i < |s| ensures s[a].w <= s[i].w && (i != a ==> s[b].w <= s[i].w) {
      WeightIn(s, i);
      if i != a { WeightIn(r, if i < a then i else i - 1); }
    }
  }

  // Merging is the cheapest: no lengths that leave room for a prefix code cost less.
  lemma {:induction false} MergeIsLeast(s: seq<Item>, m: nat)
    requires |s| >= 1 && Within(s, m) && Room(s, m) <= Pow2(m)
    ensures MergeCost(Weights(s)) <= Cost(s)
    decreases |s|, Lengths(s) + 1
  {
    hide Cost, Room, Weights, Lengths, Pow2;
    WeightsSize(s);
    if |s| >= 2 {
      var p := Longest(s);
      var l := s[p].len;
      RoomAtMost(s, l, m);
      if q: nat :| q < |s| && q != p && s[q].len == l {
        MergeTwo(s, p, q, l);
      } else {
        ShortenHelps(s, p);
        MergeIsLeast(s[p := s[p].(len := l - 1)], l);
      }
    }
  }

  lemma {:induction false} MergeTwo(s: seq<Item>, p: nat, q: nat, l: nat)
    requires |s| >= 2 && p < |s| && q < |s| && p != q && Within(s, l) && s[p].len == l == s[q].len && Room(s, l) <= Pow2(l)
    ensures MergeCost(Weights(s)) <= Cost(s)
    decreases |s|, 0
  {
    hide Cost, Room, Weights, Lengths, Pow2;
    var a, b := LightestTwo(s);
    var t := BothLongest(s, a, b, p, q, l);
    TwoLongest(s, p, q, l);
    var u := MergeItems(t, a, b, l);
    MergeIsLeast(u, l);
    MergeCostStep(Weights(s), s[a].w, s[b].w, Weights(u));
  }

  // Two items of length 0 would already overflow.
  lemma TwoLongest(s: seq<Item>, p: nat, q: nat, l: nat)
    requires p < |s| && q < |s| && p != q && Within(s, l) && s[p].len == l && Room(s, l) <= Pow2(l)
    ensures l > 0
  {
    if l == 0 { RoomFlat(s); }
  }

  lemma MergeCostStep(w: multiset<nat>, a: nat, b: nat, v: multiset<nat>)
    requires IsLeast(w, a) && IsLeast(w - multiset{a}, b) && a in w && b in w - multiset{a}
    requires v + multiset{a, b} == w + multiset{a + b}
    ensures MergeCost(w) == a + b + MergeCost(v)
  {
    hide IsLeast, Least, Merged;
    MergedIs(w, a, b, v);
    MergeCostIs(w, a, b);
  }

  lemma MergeCostIs(w: multiset<nat>, a: nat, b: nat)
    requires IsLeast(w, a) && IsLeast(w - multiset{a}, b)
    ensures MergeCost(w) == a + b + MergeCost(Merged(w, a, b))
  {
    LeastIs(w, a);
    LeastIs(w - multiset{a}, b);
    hide IsLeast, Least, Merged;
    assert |w - multiset{a}| == |w| - 1;
  }

  lemma MergedIs(w: multiset<nat>, a: nat, b: nat, v: multiset<nat>)
    requires a in w && b in w - multiset{a}
    requires v + multiset{a, b} == w + multiset{a + b}
    ensures v == Merged(w, a, b)
  {
    assert multiset{a, b} == multiset{a} + multiset{b};
    BothIn(w, a, b);
    TakenAway(w, v, multiset{a} + multiset{b}, multiset{a + b});
    assert w - (multiset{a} + multiset{b}) == w - multiset{a} - multiset{b};
  }

  lemma BothIn(w: multiset<nat>, a: nat, b: nat)
    requires a in w && b in w - multiset{a}
    ensures multiset{a} + multiset{b} <= w
  {}

  lemma TakenAway(w: multiset<nat>, v: multiset<nat>, less: multiset<nat>, more: multiset<nat>)
    requires v + less == w + more && less <= w
    ensures v == w - less + more
  {
    forall x: nat ensures v[x] == (w - less + more)[x] {
      assert (v + less)[x] == (w + more)[x];
    }
  }
}
