// The hash chains of deps/zlib/deflate.c: head[] and prev[] hold window positions. Seen
// from the whole text they link earlier strings of the same hash, and stay so when the
// window slides.

module HashChains {
  import opened Powers
  import opened Bits
  import opened StringHash

  // The place of text position a in prev[], whose size w divides the window's offset.
  function Slot(a: nat, w: nat): (r: nat)
    requires w > 0
    ensures r < w
  {
    a % w
  }

  lemma SlotShift(a: nat, k: nat, w: nat)
    requires w > 0
    ensures Slot(k * w + a, w) == a % w
  {
    DivModUnique(k * w + a, w, k + a / w, a % w);
    MulAdd(k, a / w, w);
  }

  // Positions that share a place are a multiple of w apart.
  lemma SameSlot(a: nat, b: nat, w: nat)
    requires w > 0 && a < b && Slot(a, w) == Slot(b, w)
    ensures a + w <= b
  {
    var p, q := a / w, b / w;
    assert a == p * w + a % w;
    assert b == q * w + b % w;
    if q <= p { MulMono(q, p, w); } else { MulMono(p + 1, q, w); MulAdd(p, 1, w); }
  }

  function HashAt(text: seq<byte>, a: nat, bits: nat): (r: nat)
    requires a + 3 <= |text|
    ensures r < Pow2(bits)
  {
    Hash3(text[a], text[a + 1], text[a + 2], bits)
  }

  // A string of the text that was inserted under hash h.
  ghost predicate InsertedAs(text: seq<byte>, bits: nat, ins: set<nat>, a: nat, h: nat) {
    a in ins && a + 3 <= |text| && HashAt(text, a, bits) == h
  }

  ghost predicate Bounded(text: seq<byte>, ins: set<nat>, bound: nat) {
    forall a | a in ins :: a < bound && a + 3 <= |text|
  }

  // Every head but NIL is a string with that hash.
  ghost predicate Heads(text: seq<byte>, bits: nat, ins: set<nat>, base: nat, head: seq<nat>) {
    forall h | 0 <= h < |head| :: head[h] != 0 ==> InsertedAs(text, bits, ins, base + head[h], h)
  }

  // Every link of a recent string is to an earlier one with the same hash.
  ghost predicate Links(text: seq<byte>, bits: nat, ins: set<nat>, bound: nat, base: nat, prev: seq<nat>)
    requires |prev| > 0 && Bounded(text, ins, bound)
  {
    forall a | a in ins && bound <= a + |prev| :: LinkOk(text, bits, ins, base, a, prev[Slot(a, |prev|)])
  }

  ghost predicate LinkOk(text: seq<byte>, bits: nat, ins: set<nat>, base: nat, a: nat, q: nat)
    requires a + 3 <= |text|
  {
    q != 0 ==> base + q < a && InsertedAs(text, bits, ins, base + q, HashAt(text, a, bits))
  }

  ghost predicate Chains(text: seq<byte>, bits: nat, ins: set<nat>, bound: nat, base: nat, head: seq<nat>, prev: seq<nat>) {
    && |prev| > 0 && Bounded(text, ins, bound)
    && Heads(text, bits, ins, base, head) && Links(text, bits, ins, bound, base, prev)
  }

  lemma NoChains(text: seq<byte>, bits: nat, bound: nat, base: nat, head: seq<nat>, prev: seq<nat>)
    requires |prev| > 0 && forall h | 0 <= h < |head| :: head[h] == 0
    ensures Chains(text, bits, {}, bound, base, head, prev)
  {}

  lemma TextGrows(text: seq<byte>, bits: nat, ins: set<nat>, bound: nat, base: nat, head: seq<nat>, prev: seq<nat>, more: seq<byte>)
    requires Chains(text, bits, ins, bound, base, head, prev)
    ensures Chains(text + more, bits, ins, bound, base, head, prev)
  {
    hide Hash3;
    forall a | a in ins ensures a + 3 <= |text + more| && HashAt(text + more, a, bits) == HashAt(text, a, bits) {}
    forall h | 0 <= h < |head| ensures head[h] != 0 ==> InsertedAs(text + more, bits, ins, base + head[h], h) {}
  }

  // ------------------------------------------------------------ insertion

  lemma InsertedMore(text: seq<byte>, bits: nat, ins: set<nat>, a: nat, h: nat, b: nat)
    requires InsertedAs(text, bits, ins, a, h)
    ensures InsertedAs(text, bits, ins + {b}, a, h)
  {}

  // INSERT_STRING on text position a, the string at window position p.
  lemma InsertKeeps(text: seq<byte>, bits: nat, ins: set<nat>, bound: nat, base: nat, head: seq<nat>, prev: seq<nat>, a: nat, p: nat, h: nat)
    requires Chains(text, bits, ins, bound, base, head, prev)
    requires bound <= a && a + 3 <= |text| && a == base + p && h == HashAt(text, a, bits) && h < |head|
    ensures Chains(text, bits, ins + {a}, a + 1, base, head[h := p], prev[Slot(a, |prev|) := head[h]])
  {
    InsertHeads(text, bits, ins, bound, base, head, a, p, h);
    InsertLinks(text, bits, ins, bound, base, head, prev, a, h);
  }

  lemma InsertHeads(text: seq<byte>, bits: nat, ins: set<nat>, bound: nat, base: nat, head: seq<nat>, a: nat, p: nat, h: nat)
    requires Heads(text, bits, ins, base, head)
    requires a + 3 <= |text| && a == base + p && h == HashAt(text, a, bits) && h < |head|
    ensures Heads(text, bits, ins + {a}, base, head[h := p])
  {
    hide HashAt;
    var head' := head[h := p];
    forall g | 0 <= g < |head'| ensures head'[g] != 0 ==> InsertedAs(text, bits, ins + {a}, base + head'[g], g) {
      if g != h && head[g] != 0 { InsertedMore(text, bits, ins, base + head[g], g, a); }
    }
  }

  lemma InsertLinks(text: seq<byte>, bits: nat, ins: set<nat>, bound: nat, base: nat, head: seq<nat>, prev: seq<nat>, a: nat, h: nat)
    requires Chains(text, bits, ins, bound, base, head, prev)
    requires bound <= a && a + 3 <= |text| && h == HashAt(text, a, bits) && h < |head|
    ensures Bounded(text, ins + {a}, a + 1)
    ensures Links(text, bits, ins + {a}, a + 1, base, prev[Slot(a, |prev|) := head[h]])
  {
    hide HashAt, Slot;
    var w := |prev|;
    var prev' := prev[Slot(a, w) := head[h]];
    forall b | b in ins + {a} && a + 1 <= b + w
      ensures LinkOk(text, bits, ins + {a}, base, b, prev'[Slot(b, w)])
    {
      if b == a {
        if head[h] != 0 { InsertedMore(text, bits, ins, base + head[h], h, a); }
      } else {
        if Slot(b, w) == Slot(a, w) { SameSlot(b, a, w); }
        LinkMore(text, bits, ins, base, b, prev[Slot(b, w)], a);
      }
    }
  }

  lemma LinkMore(text: seq<byte>, bits: nat, ins: set<nat>, base: nat, b: nat, q: nat, a: nat)
    requires b + 3 <= |text| && LinkOk(text, bits, ins, base, b, q)
    ensures LinkOk(text, bits, ins + {a}, base, b, q)
  {}

  // ------------------------------------------------------------ sliding

  // What slide_hash makes of an entry.
  function Slid(m: nat, w: nat): nat {
    if m >= w then m - w else 0
  }

  ghost predicate AllSlid(old': seq<nat>, new': seq<nat>, w: nat) {
    |new'| == |old'| && forall i | 0 <= i < |old'| :: new'[i] == Slid(old'[i], w)
  }

  lemma SlideKeeps(text: seq<byte>, bits: nat, ins: set<nat>, bound: nat, base: nat, head: seq<nat>, prev: seq<nat>,
                   head': seq<nat>, prev': seq<nat>)
    requires Chains(text, bits, ins, bound, base, head, prev)
    requires AllSlid(head, head', |prev|) && AllSlid(prev, prev', |prev|)
    ensures Chains(text, bits, ins, bound, base + |prev|, head', prev')
  {
    hide Heads, Links, Bounded, AllSlid;
    SlideHeads(text, bits, ins, base, head, head', |prev|);
    SlideLinks(text, bits, ins, bound, base, prev, prev');
    SlideSize(prev, prev', |prev|);
  }

  lemma SlideSize(m: seq<nat>, m': seq<nat>, w: nat)
    requires AllSlid(m, m', w)
    ensures |m'| == |m|
  {}

  lemma SlideHeads(text: seq<byte>, bits: nat, ins: set<nat>, base: nat, head: seq<nat>, head': seq<nat>, w: nat)
    requires Heads(text, bits, ins, base, head) && AllSlid(head, head', w)
    ensures Heads(text, bits, ins, base + w, head')
  {
    hide InsertedAs;
    forall h | 0 <= h < |head'| ensures head'[h] != 0 ==> InsertedAs(text, bits, ins, base + w + head'[h], h) {
      assert head'[h] == Slid(head[h], w);
    }
  }

  lemma SlideLinks(text: seq<byte>, bits: nat, ins: set<nat>, bound: nat, base: nat, prev: seq<nat>, prev': seq<nat>)
    requires |prev| > 0 && Bounded(text, ins, bound) && Links(text, bits, ins, bound, base, prev)
    requires AllSlid(prev, prev', |prev|)
    ensures |prev'| == |prev| && Links(text, bits, ins, bound, base + |prev|, prev')
  {
    hide HashAt, LinkOk, Slot, InsertedAs, Slid;
    var w := |prev|;
    forall a | a in ins && bound <= a + w ensures LinkOk(text, bits, ins, base + w, a, prev'[Slot(a, w)]) {
      SlideLink(text, bits, ins, base, a, prev[Slot(a, w)], w);
    }
  }

  lemma SlideLink(text: seq<byte>, bits: nat, ins: set<nat>, base: nat, a: nat, q: nat, w: nat)
    requires a + 3 <= |text| && LinkOk(text, bits, ins, base, a, q)
    ensures LinkOk(text, bits, ins, base + w, a, Slid(q, w))
  {}

  // ------------------------------------------------------------ matches

  // n bytes of the text at `at` are those at `from`.
  ghost predicate IsMatch(text: seq<byte>, at: nat, from: nat, n: nat) {
    from < at && at + n <= |text| && text[at..at + n] == text[from..from + n]
  }

  lemma MatchMoreText(text: seq<byte>, at: nat, from: nat, n: nat, more: seq<byte>)
    requires IsMatch(text, at, from, n)
    ensures IsMatch(text + more, at, from, n)
  {
    assert (text + more)[at..at + n] == text[at..at + n];
    assert (text + more)[from..from + n] == text[from..from + n];
  }

  // Strings in one chain that agree on two bytes agree on three.
  lemma ChainThird(text: seq<byte>, bits: nat, ins: set<nat>, a: nat, b: nat)
    requires 8 <= bits && a + 3 <= |text| && b < a && InsertedAs(text, bits, ins, b, HashAt(text, a, bits))
    requires text[a] == text[b] && text[a + 1] == text[b + 1]
    ensures IsMatch(text, a, b, 3)
  {
    ThirdByte(text[a], text[a + 1], text[a + 2], text[b + 2], bits);
  }
}
