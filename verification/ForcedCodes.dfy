// The symbols that build_tree forces to occur cost the block nothing (deps/zlib/trees.c:648-660):
// the bits taken off in advance are exactly those of their one-bit words, never sent.

module ForcedCodes {
  import opened Powers
  import opened Canonical
  import opened TreeLengths
  import opened OptimalCodes
  import opened HuffmanTree

  lemma {:induction false} BillUpdate(desc: Desc, freq: seq<nat>, lens: seq<nat>, i: nat, v: nat, k: nat)
    requires i < |freq|
    ensures BillTotal(desc, freq[i := v], lens, k)
         == BillTotal(desc, freq, lens, k) + if i < k then Bill(desc, v, i, At(lens, i)) - Bill(desc, freq[i], i, At(lens, i)) else 0
  {
    hide Bill;
    if k > 0 { BillUpdate(desc, freq, lens, i, v, k - 1); }
  }

  lemma {:induction false} BillSame(desc: Desc, freq: seq<nat>, more: seq<nat>, lens: seq<nat>, k: nat)
    requires forall i | 0 <= i < k :: At(freq, i) == At(more, i)
    ensures BillTotal(desc, freq, lens, k) == BillTotal(desc, more, lens, k)
  {
    if k > 0 { BillSame(desc, freq, more, lens, k - 1); }
  }

  // Symbols that do not occur cost nothing.
  lemma {:induction false} BillTail(desc: Desc, freq: seq<nat>, lens: seq<nat>, n: nat, k: nat)
    requires n <= k && forall i | n <= i < k :: At(freq, i) == 0
    ensures BillTotal(desc, freq, lens, k) == BillTotal(desc, freq, lens, n)
    decreases k
  {
    if n < k {
      BillTail(desc, freq, lens, n, k - 1);
      FreeBill(desc, k - 1, At(lens, k - 1));
    }
  }

  lemma {:induction false} ForcedElse(freq: seq<nat>, forced: seq<nat>, x: nat)
    requires x < |freq| && x !in forced
    ensures Forced(freq, forced)[x] == freq[x]
    decreases |forced|
  {
    if forced != [] { ForcedElse(freq, forced[1..], x); }
  }

  lemma {:induction false} ForcedOnes(freq: seq<nat>, forced: seq<nat>, i: nat)
    requires i < |forced| && forced[i] < |freq|
    ensures Forced(freq, forced)[forced[i]] == 1
    decreases |forced|
  {
    if i > 0 {
      assert forced[1..][i - 1] == forced[i];
      ForcedOnes(freq, forced[1..], i - 1);
    }
  }

  lemma OneBitBill(desc: Desc, i: nat)
    requires ExtraOf(desc, i) == 0
    ensures Bill(desc, 1, i, 1) == 1 && Bill(desc, 0, i, 1) == 0
  {}

  lemma FewRest(freq: seq<nat>, forced: seq<nat>)
    requires FewForced(freq, forced) && forced != []
    ensures FewForced(freq, forced[1..]) && forced[0] !in forced[1..]
  {
    forall i, j | 0 <= i < j < |forced[1..]| ensures forced[1..][i] != forced[1..][j] {
      assert forced[i + 1] != forced[j + 1];
    }
  }

  lemma {:induction false} ForcedBill(desc: Desc, freq: seq<nat>, forced: seq<nat>, lens: seq<nat>, n: nat)
    requires FewForced(freq, forced) && 3 <= n && (forall i | 0 <= i <= 2 :: ExtraOf(desc, i) == 0)
    requires forall i | 0 <= i < |forced| :: At(lens, forced[i]) == 1
    ensures BillTotal(desc, Forced(freq, forced), lens, n) == BillTotal(desc, freq, lens, n) + |forced|
    decreases |forced|
  {
    if forced != [] {
      hide BillTotal, Bill, ExtraOf, FewForced;
      FewRest(freq, forced);
      forall i | 0 <= i < |forced[1..]| ensures At(lens, forced[1..][i]) == 1 { assert forced[1..][i] == forced[i + 1]; }
      ForcedBill(desc, freq, forced[1..], lens, n);
      Few(freq, forced);
      var x := forced[0];
      ForcedElse(freq, forced[1..], x);
      BillUpdate(desc, Forced(freq, forced[1..]), lens, x, 1, n);
      OneBitBill(desc, x);
    }
  }

  lemma Few(freq: seq<nat>, forced: seq<nat>)
    requires FewForced(freq, forced) && forced != []
    ensures forced[0] <= 2 && forced[0] < |freq| && freq[forced[0]] == 0
  {}

  // ------------------------------------------------------------ two symbols, one bit each

  lemma {:induction false} TwoWidths(lens: seq<bitlen>, x: nat, y: nat, k: nat)
    requires x < |lens| && y < |lens| && k <= |lens| && x != y
    requires forall i | 0 <= i < |lens| && lens[i] > 0 :: i == x || i == y
    ensures Below(lens, k, 16, 0) <= (if x < k then Width(lens[x]) else 0) + if y < k then Width(lens[y]) else 0
  {
    hide Width;
    if k > 0 { TwoWidths(lens, x, y, k - 1); }
  }

  lemma TwoOneBit(lens: seq<bitlen>, x: nat, y: nat)
    requires x < |lens| && y < |lens| && x != y && Kraft(lens) == Pow2(15) && 0 < lens[x] && 0 < lens[y]
    requires forall i | 0 <= i < |lens| && lens[i] > 0 :: i == x || i == y
    ensures lens[x] == 1 == lens[y]
  {
    TwoWidths(lens, x, y, |lens|);
    Pow2Mono(15 - lens[x], 14);
    Pow2Mono(15 - lens[y], 14);
  }

  lemma OnlyOne(s: set<nat>, x: nat, y: nat)
    requires |s| == 1 && x in s && y in s
    ensures x == y
  {
    assert |s - {x}| == 0;
    assert y !in s - {x};
  }

  lemma NoneOccurs(freq: seq<nat>, n: nat)
    requires n <= |freq| && |Occurring(freq, n)| == 0
    ensures forall j | 0 <= j < n :: freq[j] == 0
  {
    forall j | 0 <= j < n ensures freq[j] == 0 { assert j !in Occurring(freq, n); }
  }

  // The symbol beside a forced one.
  lemma OtherSymbol(freq0: seq<nat>, forced: seq<nat>, n: nat, i: nat) returns (x: nat)
    requires n <= |freq0| && FewForced(freq0, forced) && i < |forced| && 3 <= n
    requires |forced| == (var m := |Occurring(freq0, n)|; if m < 2 then 2 - m else 0)
    ensures x < n && x != forced[i] && Forced(freq0, forced)[x] > 0
    ensures forall j | 0 <= j < n && Forced(freq0, forced)[j] > 0 :: j == x || j == forced[i]
  {
    if |forced| == 2 {
      x := forced[1 - i];
      ForcedOnes(freq0, forced, 1 - i);
      NoneOccurs(freq0, n);
      forall j | 0 <= j < n && Forced(freq0, forced)[j] > 0 ensures j == x || j == forced[i] {
        if j !in forced { ForcedElse(freq0, forced, j); }
      }
    } else {
      x :| x in Occurring(freq0, n);
      ForcedElse(freq0, forced, x);
      forall j | 0 <= j < n && Forced(freq0, forced)[j] > 0 ensures j == x || j == forced[i] {
        if j !in forced {
          ForcedElse(freq0, forced, j);
          OnlyOne(Occurring(freq0, n), x, j);
        }
      }
    }
  }

  // So the total is that of the symbols that really occur.
  lemma ForcedFree(desc: Desc, freq0: seq<nat>, forced: seq<nat>, freq: seq<nat>, lens: seq<bitlen>, maxCode: nat)
    requires 3 <= desc.elems <= |freq0| && maxCode < desc.elems && |lens| == |freq| == maxCode + 1
    requires freq == Forced(freq0, forced)[..maxCode + 1]
    requires forall i | maxCode < i < desc.elems :: Forced(freq0, forced)[i] == 0
    requires FewForced(freq0, forced)
    requires |forced| == (var m := |Occurring(freq0, desc.elems)|; if m < 2 then 2 - m else 0)
    requires Kraft(lens) == Pow2(15) && forall i | 0 <= i < |lens| :: lens[i] > 0 <==> freq[i] > 0
    requires forall i | 0 <= i <= 2 :: ExtraOf(desc, i) == 0
    ensures BillTotal(desc, freq, lens, maxCode + 1) == BillTotal(desc, freq0, lens, desc.elems) + |forced|
  {
    hide BillTotal, Bill, Forced, Kraft, Pow2, Occurring, FewForced, ExtraOf;
    var f, n := Forced(freq0, forced), desc.elems;
    forall i | 0 <= i < |forced| ensures At(lens, forced[i]) == 1 {
      ForcedInside(freq0, forced, i);
      ForcedOnes(freq0, forced, i);
      var x := OtherSymbol(freq0, forced, n, i);
      assert freq[forced[i]] == f[forced[i]] && freq[x] == f[x];
      forall j | 0 <= j < |lens| && lens[j] > 0 ensures j == x || j == forced[i] {
        assert freq[j] == f[j];
      }
      TwoOneBit(lens, x, forced[i]);
    }
    ForcedBill(desc, freq0, forced, lens, n);
    BillSame(desc, freq, f, lens, maxCode + 1);
    BillTail(desc, f, lens, maxCode + 1, n);
  }

  lemma ForcedInside(freq: seq<nat>, forced: seq<nat>, i: nat)
    requires FewForced(freq, forced) && i < |forced|
    ensures forced[i] <= 2 && forced[i] < |freq|
  {}
}
