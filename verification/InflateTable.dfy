// inflate_table (deps/zlib/inftrees.c:32-299): from code lengths to a two-level
// decoding table.

module InflateTable {
  import opened Powers
  import opened Bits
  import opened Canonical
  import opened SymbolOrder
  import opened TableLayout
  import opened TableSteps
  import opened TableSpace

  const ENOUGH_LENS := 852
  const ENOUGH_DISTS := 592

  // The table space a caller reserves for each code type.
  function Space(kind: CodeType, bits: nat): nat {
    match kind case CODES => Pow2(bits) case LENS => ENOUGH_LENS case DISTS => ENOUGH_DISTS
  }

  predicate Exceeds(kind: CodeType, used: nat) {
    (kind == LENS && used > ENOUGH_LENS) || (kind == DISTS && used > ENOUGH_DISTS)
  }

  // ------------------------------------------------------------ loop state

  // Where the code words entered so far sit: short ones in the root table, long
  // ones in a sub-table that ends by the end of the table now being filled.
  ghost predicate PlacedAt(t: seq<Entry>, root: nat, kind: CodeType, lens: seq<bitlen>, s: nat, low: int, next: nat, curr: nat)
    requires |lens| <= MaxSymbols(kind) && s < |lens|
  {
    if lens[s] <= root then RootFilled(t, root, kind, lens, s)
    else SubFilled(t, root, kind, lens, s, if LinkSlot(root, lens, s) == low then next + Pow2(curr) else next)
  }

  ghost predicate Placed(t: seq<Entry>, root: nat, kind: CodeType, lens: seq<bitlen>, order: seq<nat>, n: nat, low: int, next: nat, curr: nat)
    requires |lens| <= MaxSymbols(kind) && Sorted(lens, order) && n <= |order|
  {
    forall k :: 0 <= k < n ==> PlacedAt(t, root, kind, lens, order[k], low, next, curr)
  }

  // The table being filled is the right one for symbol s.
  ghost predicate Ready(t: seq<Entry>, root: nat, lens: seq<bitlen>, s: nat, low: int, next: nat, curr: nat, drop: nat)
    requires s < |lens|
  {
    && next + Pow2(curr) <= |t| && Pow2(root) <= |t| && curr <= 15
    && if lens[s] <= root then
         drop == 0 && next == 0 && curr == root && low == -1
       else
         && drop == root && low == LinkSlot(root, lens, s)
         && t[low] == Entry(curr, root, next) && Pow2(root) <= next
         && lens[s] <= root + curr && SubBound(lens, root, s, root + curr)
  }

  function HuffAt(lens: seq<bitlen>, s: nat, drop: nat): nat
    requires s < |lens|
  {
    Hi(Huff(lens, s), drop)
  }

  lemma HuffAtFits(lens: seq<bitlen>, s: nat, drop: nat)
    requires s < |lens| && drop <= lens[s]
    ensures HuffAt(lens, s, drop) < Pow2(lens[s] - drop)
  {
    HiFits(Huff(lens, s), drop, lens[s]);
  }

  // What one round of the loop writes.
  function RoundOverlay(t: seq<Entry>, kind: CodeType, lens: seq<bitlen>, s: nat, next: nat, curr: nat, drop: nat): seq<Entry>
    requires |lens| <= MaxSymbols(kind) && s < |lens| && next + Pow2(curr) <= |t| && drop <= lens[s]
  {
    Overlay(t[next..next + Pow2(curr)], lens[s] - drop, HuffAt(lens, s, drop), SymbolEntry(kind, s, lens[s] - drop))
  }

  lemma RootRound(t: seq<Entry>, kind: CodeType, lens: seq<bitlen>, s: nat, curr: nat)
    requires |lens| <= MaxSymbols(kind) && s < |lens| && Pow2(curr) <= |t|
    ensures RoundOverlay(t, kind, lens, s, 0, curr, 0) ==
            Overlay(t[..Pow2(curr)], lens[s], Huff(lens, s), SymbolEntry(kind, s, lens[s]))
  {
    assert t[0..Pow2(curr)] == t[..Pow2(curr)];
  }

  lemma PutKeepsOne(t: seq<Entry>, t': seq<Entry>, root: nat, kind: CodeType, lens: seq<bitlen>, s: nat, s': nat,
                    low: int, next: nat, curr: nat, drop: nat)
    requires |lens| <= MaxSymbols(kind) && Kraft(lens) <= Pow2(15) && 1 <= root <= 15
    requires Coded(lens, s) && Coded(lens, s') && s != s' && lens[s'] <= lens[s]
    requires Ready(t, root, lens, s, low, next, curr, drop)
    requires PlacedAt(t, root, kind, lens, s', low, next, curr)
    requires Replaced(t, t', next, RoundOverlay(t, kind, lens, s, next, curr, drop))
    ensures PlacedAt(t', root, kind, lens, s', low, next, curr)
  {
    hide SubFilled, RootFilled, Kraft, SubBound, Replaced, Overlay, Huff, Pow2, Hi, Lo, Fills;
    if lens[s] <= root {
      RootRound(t, kind, lens, s, curr);
      PutRootKeeps(t, t', root, kind, lens, s, s');
    } else if lens[s'] <= root {
      PutSubKeepsRoot(t, t', root, kind, lens, s', next, RoundOverlay(t, kind, lens, s, next, curr, drop));
    } else if LinkSlot(root, lens, s') == low {
      PutSubKeepsSame(t, t', root, kind, lens, s, s', next, curr);
    } else {
      PutSubKeepsOther(t, t', root, kind, lens, s', next, RoundOverlay(t, kind, lens, s, next, curr, drop));
    }
  }

  lemma SubRound(t: seq<Entry>, root: nat, kind: CodeType, lens: seq<bitlen>, s: nat, next: nat, curr: nat)
    requires |lens| <= MaxSymbols(kind) && s < |lens| && root < lens[s] && next + Pow2(curr) <= |t|
    ensures RoundOverlay(t, kind, lens, s, next, curr, root) == SubOverlay(t, root, kind, lens, s, next, curr)
  {
    hide Overlay, Huff, Pow2;
  }

  lemma ReplacedSize(t: seq<Entry>, t': seq<Entry>, at: nat, u: seq<Entry>)
    requires Replaced(t, t', at, u)
    ensures |t'| == |t|
  {}

  lemma PlacesRoot(t: seq<Entry>, t': seq<Entry>, root: nat, kind: CodeType, lens: seq<bitlen>, s: nat,
                  low: int, next: nat, curr: nat, drop: nat)
    requires |lens| <= MaxSymbols(kind) && Coded(lens, s)
    requires Ready(t, root, lens, s, low, next, curr, drop)
    requires Replaced(t, t', next, RoundOverlay(t, kind, lens, s, next, curr, drop))
    requires lens[s] <= root
    ensures RootFilled(t', root, kind, lens, s) && |t'| == |t|
  {
    hide SubFilled, RootFilled, SubBound, Overlay, Huff, LinkSlot;
    RootRound(t, kind, lens, s, curr);
    PutRootFills(t, t', root, kind, lens, s);
  }

  lemma PlacesSub(t: seq<Entry>, t': seq<Entry>, root: nat, kind: CodeType, lens: seq<bitlen>, s: nat,
                  low: int, next: nat, curr: nat, drop: nat)
    requires |lens| <= MaxSymbols(kind) && Coded(lens, s)
    requires Ready(t, root, lens, s, low, next, curr, drop)
    requires Replaced(t, t', next, RoundOverlay(t, kind, lens, s, next, curr, drop))
    requires lens[s] > root
    ensures low >= 0 && SubFilled(t', root, kind, lens, s, next + Pow2(curr)) && |t'| == |t| && low < |t| && t'[low] == t[low]
  {
    hide SubFilled, RootFilled, SubBound, Overlay, RoundOverlay, SubOverlay, Replaced, Huff, LinkSlot;
    SubRound(t, root, kind, lens, s, next, curr);
    PutSubFills(t, t', root, kind, lens, s, next, curr);
    ReplacedSize(t, t', next, RoundOverlay(t, kind, lens, s, next, curr, drop));
    ReplacedAt(t, t', next, RoundOverlay(t, kind, lens, s, next, curr, drop), low);
  }

  lemma PutPlaces(t: seq<Entry>, t': seq<Entry>, root: nat, kind: CodeType, lens: seq<bitlen>, s: nat,
                  low: int, next: nat, curr: nat, drop: nat)
    requires |lens| <= MaxSymbols(kind) && Coded(lens, s)
    requires Ready(t, root, lens, s, low, next, curr, drop)
    requires Replaced(t, t', next, RoundOverlay(t, kind, lens, s, next, curr, drop))
    ensures PlacedAt(t', root, kind, lens, s, low, next, curr)
    ensures Ready(t', root, lens, s, low, next, curr, drop)
  {
    hide SubFilled, RootFilled, SubBound, RoundOverlay, Replaced, LinkSlot;
    if lens[s] <= root {
      PlacesRoot(t, t', root, kind, lens, s, low, next, curr, drop);
    } else {
      PlacesSub(t, t', root, kind, lens, s, low, next, curr, drop);
    }
  }

  lemma PutAll(t: seq<Entry>, t': seq<Entry>, root: nat, kind: CodeType, lens: seq<bitlen>, order: seq<nat>, n: nat,
               low: int, next: nat, curr: nat, drop: nat)
    requires |lens| <= MaxSymbols(kind) && Kraft(lens) <= Pow2(15) && 1 <= root <= 15
    requires Sorted(lens, order) && n < |order|
    requires Ready(t, root, lens, order[n], low, next, curr, drop)
    requires Placed(t, root, kind, lens, order, n, low, next, curr)
    requires Replaced(t, t', next, RoundOverlay(t, kind, lens, order[n], next, curr, drop))
    ensures Placed(t', root, kind, lens, order, n + 1, low, next, curr)
    ensures Ready(t', root, lens, order[n], low, next, curr, drop)
  {
    PutPlaces(t, t', root, kind, lens, order[n], low, next, curr, drop);
    forall k | 0 <= k < n + 1 ensures PlacedAt(t', root, kind, lens, order[k], low, next, curr) {
      if k < n {
        OrderMono(lens, order, k, n);
        PutKeepsOne(t, t', root, kind, lens, order[n], order[k], low, next, curr, drop);
      }
    }
  }

  // The next symbol's root slot differs from that of every long word entered before,
  // when it differs from the last one's.
  lemma SlotIsFresh(lens: seq<bitlen>, order: seq<nat>, root: nat, n: nat, k: nat)
    requires Sorted(lens, order) && Kraft(lens) <= Pow2(15) && root <= 15
    requires k < n < |order|
    requires LinkSlot(root, lens, order[n]) != LinkSlot(root, lens, order[n - 1])
    ensures LinkSlot(root, lens, order[k]) != LinkSlot(root, lens, order[n])
  {
    hide LinkSlot, Start, Kraft, Width, Pow2;
    OrderMono(lens, order, k, n - 1);
    OrderMono(lens, order, n - 1, n);
    if LinkSlot(root, lens, order[k]) == LinkSlot(root, lens, order[n]) {
      SlotBetween(lens, root, order[k], order[n - 1], order[n]);
    }
  }

  lemma SlotBetween(lens: seq<bitlen>, root: nat, a: nat, b: nat, c: nat)
    requires Coded(lens, a) && Coded(lens, b) && Coded(lens, c) && Kraft(lens) <= Pow2(15) && root <= 15
    requires Start(lens, a) <= Start(lens, b) <= Start(lens, c)
    requires LinkSlot(root, lens, a) == LinkSlot(root, lens, c)
    ensures LinkSlot(root, lens, b) == LinkSlot(root, lens, c)
  {
    hide LinkSlot, Start, Kraft, Width, Pow2;
    SameSlotSamePrefix(lens, root, a, c);
    SameSlotSamePrefix(lens, root, b, c);
    HiMono(Start(lens, a), Start(lens, b), 15 - root);
    HiMono(Start(lens, b), Start(lens, c), 15 - root);
  }

  lemma SubFilledWiden(t: seq<Entry>, root: nat, kind: CodeType, lens: seq<bitlen>, s: nat, end: nat, end': nat)
    requires |lens| <= MaxSymbols(kind) && s < |lens| && root < lens[s]
    requires SubFilled(t, root, kind, lens, s, end) && end <= end' <= |t|
    ensures SubFilled(t, root, kind, lens, s, end')
  {}

  lemma OpenKeepsOne(t: seq<Entry>, root: nat, kind: CodeType, lens: seq<bitlen>, s: nat, s': nat,
                     low: int, next: nat, curr: nat, link: Entry, next': nat, curr': nat)
    requires |lens| <= MaxSymbols(kind) && Kraft(lens) <= Pow2(15)
    requires Coded(lens, s) && Coded(lens, s') && s != s' && root < lens[s]
    requires lens[s'] > root ==> LinkSlot(root, lens, s') != LinkSlot(root, lens, s)
    requires PlacedAt(t, root, kind, lens, s', low, next, curr)
    requires next' == next + Pow2(curr) <= |t| && Pow2(root) <= |t|
    ensures PlacedAt(t[LinkSlot(root, lens, s) := link], root, kind, lens, s', LinkSlot(root, lens, s), next', curr')
  {
    if lens[s'] <= root {
      LinkKeepsRoot(t, link, root, kind, lens, s, s');
    } else {
      var end := if LinkSlot(root, lens, s') == low then next + Pow2(curr) else next;
      SubFilledWiden(t, root, kind, lens, s', end, next');
      LinkKeepsSub(t, link, LinkSlot(root, lens, s), root, kind, lens, s', next');
    }
  }

  lemma OpenKeeps(t: seq<Entry>, t': seq<Entry>, root: nat, kind: CodeType, lens: seq<bitlen>, order: seq<nat>, n: nat,
                  low: int, next: nat, curr: nat, low': nat, next': nat, curr': nat)
    requires |lens| <= MaxSymbols(kind) && Kraft(lens) <= Pow2(15) && root <= 15
    requires Sorted(lens, order) && 0 < n < |order| && root < lens[order[n]]
    requires LinkSlot(root, lens, order[n]) == low' != low
    requires lens[order[n - 1]] > root ==> low == LinkSlot(root, lens, order[n - 1])
    requires Placed(t, root, kind, lens, order, n, low, next, curr)
    requires next' == next + Pow2(curr) <= |t| && Pow2(root) <= |t|
    requires t' == t[low' := Entry(curr', root, next')]
    ensures Placed(t', root, kind, lens, order, n, low', next', curr')
  {
    forall k | 0 <= k < n ensures PlacedAt(t', root, kind, lens, order[k], low', next', curr') {
      OpenKeepsAt(lens, order, root, n, k, low);
      OpenKeepsOne(t, root, kind, lens, order[n], order[k], low, next, curr, Entry(curr', root, next'), next', curr');
    }
  }

  lemma OpenKeepsAt(lens: seq<bitlen>, order: seq<nat>, root: nat, n: nat, k: nat, low: int)
    requires Sorted(lens, order) && Kraft(lens) <= Pow2(15) && root <= 15 && k < n < |order|
    requires LinkSlot(root, lens, order[n]) != low
    requires lens[order[n - 1]] > root ==> low == LinkSlot(root, lens, order[n - 1])
    ensures order[k] != order[n]
    ensures lens[order[k]] > root ==> LinkSlot(root, lens, order[k]) != LinkSlot(root, lens, order[n])
  {
    OrderMono(lens, order, k, n - 1);
    if lens[order[k]] > root { SlotIsFresh(lens, order, root, n, k); }
  }

  ghost predicate Counted(count: array<nat>, lens: seq<bitlen>, n: nat)
    reads count
  {
    count.Length == 16 && forall l :: 1 <= l <= 15 ==> count[l] == Left(lens, n, l)
  }

  // What stays fixed over the loop.
  ghost predicate Setup(kind: CodeType, lens: seq<bitlen>, order: seq<nat>, root: nat, max: nat, space: nat) {
    && |lens| <= MaxSymbols(kind) && Kraft(lens) <= Pow2(15)
    && (Kraft(lens) < Pow2(15) ==> max == 1)
    && Sorted(lens, order) && 0 < |order|
    && (forall s :: 0 <= s < |lens| ==> lens[s] <= max)
    && (exists s :: 0 <= s < |lens| && lens[s] == max)
    && 1 <= root <= 15 && 1 <= max <= 15
    && (kind == CODES ==> max <= root)
    && (kind != CODES ==> space == Space(kind, 0))
  }

  // ------------------------------------------------------------ table writes

  // Writes here to every slot of the 2^curr slots at `at` whose low l index bits are g.
  method Replicate(table: array<Entry>, at: nat, g: nat, l: nat, curr: nat, here: Entry)
    requires l <= curr && g < Pow2(l) && at + Pow2(curr) <= table.Length
    modifies table
    ensures Replaced(old(table[..]), table[..], at, Overlay(old(table[..])[at..at + Pow2(curr)], l, g, here))
  {
    hide Overlay, Lo, Pow2;
    var incr := Pow2(l);
    var fill := Pow2(curr);
    ghost var a := table[..];
    ghost var u := a[at..at + fill];
    ghost var r := Overlay(u, l, g, here);
    ghost var q := Pow2(curr - l);
    Pow2Split(l, curr);
    while fill != 0
      invariant fill == q * incr && 0 <= q && 0 <= fill <= |r| == Pow2(curr)
      invariant forall i :: 0 <= i < at + fill ==> table[i] == a[i]
      invariant forall i :: at + fill <= i < at + |r| ==> table[i] == r[i - at]
      invariant forall i :: at + |r| <= i < table.Length ==> table[i] == a[i]
      decreases fill
    {
      StepDown(q, incr);
      fill := fill - incr;
      q := q - 1;
      OverlayRow(u, l, g, here, q, fill);
      table[at + g + fill] := here;
      assert forall i :: fill <= i < fill + incr ==> a[at + i] == u[i];
    }
    assert table[..] == a[..at] + r + a[at + |r|..];
  }

  // Among the slots fill .. fill + 2^l - 1, the overlay changes exactly one.
  lemma OverlayRow(u: seq<Entry>, l: nat, g: nat, e: Entry, q: nat, fill: nat)
    requires g < Pow2(l) && fill == q * Pow2(l) && fill + Pow2(l) <= |u|
    ensures forall i :: fill <= i < fill + Pow2(l) ==> Overlay(u, l, g, e)[i] == if i == fill + g then e else u[i]
  {
    forall i | fill <= i < fill + Pow2(l) ensures Lo(i, l) == i - fill {
      LoOfJoin(q, i - fill, l);
    }
  }

  lemma StepDown(q: nat, d: nat)
    requires q * d != 0
    ensures q > 0 && q * d - d == (q - 1) * d >= 0
  {}

  lemma ReplacedShift(a: seq<Entry>, a': seq<Entry>, start: nat, space: nat, next: nat, u: seq<Entry>)
    requires start + space <= |a| && next + |u| <= space
    requires Replaced(a, a', start + next, u)
    ensures Replaced(a[start..start + space], a'[start..start + space], next, u)
    ensures a'[..start] == a[..start] && a'[start + space..] == a[start + space..]
  {
    var b, b' := a[start..start + space], a'[start..start + space];
    forall i | 0 <= i < |b| ensures b'[i] == (b[..next] + u + b[next + |u|..])[i] {
      assert b'[i] == a'[start + i] && b[i] == a[start + i];
    }
    forall i | start + space <= i < |a| ensures a'[i] == a[i] {}
  }

  // The source chooses the entry by comparing the symbol with `match`.
  method MakeEntry(kind: CodeType, w: nat, bits: nat) returns (here: Entry)
    requires w < MaxSymbols(kind)
    ensures here == SymbolEntry(kind, w, bits)
  {
    var base: seq<nat>, extra: seq<nat>, match_ := [], [], 20;
    if kind == LENS {
      base, extra, match_ := LBASE, LEXT, 257;
    } else if kind == DISTS {
      base, extra, match_ := DBASE, DEXT, 0;
    }
    if w + 1 < match_ {
      here := Entry(0, bits, w);
    } else if w >= match_ {
      here := Entry(extra[w - match_], bits, base[w - match_]);
    } else {
      here := Entry(32 + 64, bits, 0);
    }
  }

  function Region(table: array<Entry>, start: nat, space: nat): seq<Entry>
    requires start + space <= table.Length
    reads table
  {
    table[start..start + space]
  }

  twostate predicate OnlyRegion(table: array<Entry>, start: nat, space: nat)
    requires start + space <= table.Length
    reads table
  {
    table[..start] == old(table[..start]) && table[start + space..] == old(table[start + space..])
  }

  lemma SliceSlice(a: seq<Entry>, start: nat, space: nat, next: nat, n: nat)
    requires start + space <= |a| && next + n <= space
    ensures a[start + next..start + next + n] == a[start..start + space][next..next + n]
  {
    var x, y := a[start + next..start + next + n], a[start..start + space][next..next + n];
    forall i | 0 <= i < n ensures x[i] == y[i] {
      assert y[i] == a[start..start + space][next + i];
    }
  }

  method PutEntries(table: array<Entry>, start: nat, ghost space: nat, next: nat, g: nat, l: nat, curr: nat, here: Entry)
    requires start + space <= table.Length && next + Pow2(curr) <= space && l <= curr && g < Pow2(l)
    modifies table
    ensures Replaced(old(Region(table, start, space)), Region(table, start, space), next,
                     Overlay(old(Region(table, start, space))[next..next + Pow2(curr)], l, g, here))
    ensures OnlyRegion(table, start, space)
  {
    hide Overlay, Replaced, Pow2;
    ghost var a, t := table[..], Region(table, start, space);
    assert t == a[start..start + space];
    ghost var n := Pow2(curr);
    ghost var at := start + next;
    ghost var u := Overlay(a[at..at + n], l, g, here);
    SliceSlice(a, start, space, next, n);
    assert u == Overlay(t[next..next + n], l, g, here);
    Replicate(table, start + next, g, l, curr, here);
    ghost var a' := table[..];
    ReplacedShift(a, a', start, space, next, u);
    assert Region(table, start, space) == a'[start..start + space];
    assert table[..start] == a'[..start] && table[start + space..] == a'[start + space..];
  }

  // What Ready says about the room for the entries of s.
  lemma ReadyRoom(t: seq<Entry>, root: nat, lens: seq<bitlen>, s: nat, low: int, next: nat, curr: nat, drop: nat)
    requires s < |lens| && Ready(t, root, lens, s, low, next, curr, drop)
    ensures next + Pow2(curr) <= |t| && drop <= lens[s] <= drop + curr
  {
    hide SubBound, LinkSlot, Pow2;
  }

  // Copies the entry of symbol s to every index that its code word leaves open.
  method PutRound(table: array<Entry>, start: nat, ghost space: nat, kind: CodeType, ghost lens: seq<bitlen>, s: nat,
                  huff: nat, len: nat, next: nat, curr: nat, drop: nat)
    requires start + space <= table.Length
    requires |lens| <= MaxSymbols(kind) && s < |lens| && len == lens[s] && huff == Huff(lens, s)
    requires next + Pow2(curr) <= space && drop <= len <= drop + curr
    modifies table
    ensures Replaced(old(Region(table, start, space)), Region(table, start, space), next,
                     RoundOverlay(old(Region(table, start, space)), kind, lens, s, next, curr, drop))
    ensures OnlyRegion(table, start, space)
  {
    hide Replaced, Overlay, SymbolEntry, Huff;
    var here := MakeEntry(kind, s, len - drop);
    var g := huff / Pow2(drop);
    LoHiIs(huff, drop);
    HuffAtFits(lens, s, drop);
    PutEntries(table, start, space, next, g, len - drop, curr, here);
  }

  // Enters the code word of order[n] into the current table.
  method PutSymbol(table: array<Entry>, start: nat, ghost space: nat, kind: CodeType, lens: seq<bitlen>, ghost order: seq<nat>,
                   ghost n: nat, s: nat, ghost root: nat, huff: nat, len: nat, ghost low: int, next: nat, curr: nat, drop: nat)
    requires start + space <= table.Length
    requires |lens| <= MaxSymbols(kind) && Kraft(lens) <= Pow2(15) && 1 <= root <= 15
    requires Sorted(lens, order) && n < |order| && s == order[n]
    requires len == lens[s] && huff == Huff(lens, s)
    requires Ready(Region(table, start, space), root, lens, s, low, next, curr, drop)
    requires Placed(Region(table, start, space), root, kind, lens, order, n, low, next, curr)
    modifies table
    ensures Placed(Region(table, start, space), root, kind, lens, order, n + 1, low, next, curr)
    ensures Ready(Region(table, start, space), root, lens, s, low, next, curr, drop)
    ensures OnlyRegion(table, start, space)
  {
    hide Placed, Ready, Kraft, Replaced, RoundOverlay, Huff;
    ghost var t := Region(table, start, space);
    ReadyRoom(t, root, lens, s, low, next, curr, drop);
    PutRound(table, start, space, kind, lens, s, huff, len, next, curr, drop);
    PutAll(t, Region(table, start, space), root, kind, lens, order, n, low, next, curr, drop);
  }

  // The sub-table opened for order[n] is as wide as the longest word of its slot, and new.
  lemma SubSizeIs(lens: seq<bitlen>, order: seq<nat>, n: nat, root: nat, l: nat, low: int)
    requires Sorted(lens, order) && Kraft(lens) == Pow2(15) && 0 < n < |order|
    requires root < lens[order[n]] <= l <= 15
    requires LinkSlot(root, lens, order[n]) != low
    requires lens[order[n - 1]] > root ==> low == LinkSlot(root, lens, order[n - 1])
    requires Needed(lens, root, order[n], l) && SubBound(lens, root, order[n], l)
    ensures SizeAt(lens, order, n + 1, root) == SizeAt(lens, order, n, root) + Pow2(l - root)
  {
    hide SubBound, Needed, LinkSlot, SizeAt, Longest, Kraft, Start, RankOf;
    SlotAligned(lens, order, n, root);
    SizeIsLongest(lens, root, order[n], l);
    forall k | 0 <= k < n && lens[order[k]] > root
      ensures LinkSlot(root, lens, order[k]) != LinkSlot(root, lens, order[n])
    {
      OpenKeepsAt(lens, order, root, n, k, low);
    }
    SizeGrow(lens, order, n, root);
  }

  // Opens the sub-table for order[n]; refuses when the table space would run out.
  method OpenSub(table: array<Entry>, start: nat, ghost space: nat, kind: CodeType, ghost lens: seq<bitlen>, ghost order: seq<nat>,
                 ghost n: nat, root: nat, max: nat, count: array<nat>, huff: nat, len: nat,
                 ghost low: int, next: nat, curr: nat, used: nat)
    returns (ok: bool, low': int, next': nat, curr': nat, used': nat)
    requires start + space <= table.Length && Setup(kind, lens, order, root, max, space)
    requires 0 < n < |order| && root < len == lens[order[n]] && huff == Huff(lens, order[n])
    requires Counted(count, lens, n)
    requires LinkSlot(root, lens, order[n]) != low
    requires lens[order[n - 1]] > root ==> low == LinkSlot(root, lens, order[n - 1])
    requires used == next + Pow2(curr) <= space && Pow2(root) <= used
    requires Placed(Region(table, start, space), root, kind, lens, order, n, low, next, curr)
    requires used == SizeAt(lens, order, n, root)
    modifies table
    ensures OnlyRegion(table, start, space)
    ensures used' == SizeAt(lens, order, n + 1, root)
    ensures !ok ==> Exceeds(kind, used')
    ensures ok ==> used' == next' + Pow2(curr') <= space && Pow2(root) <= used'
    ensures ok ==> Placed(Region(table, start, space), root, kind, lens, order, n, low', next', curr')
    ensures ok ==> Ready(Region(table, start, space), root, lens, order[n], low', next', curr', root)
  {
    hide Pow2, SizeAt, SubBound, Needed, Placed, Ready, LinkSlot, Kraft, Left, Huff;
    next' := next + Pow2(curr);
    curr' := SizeSub(lens, order, n, count, len, root, max);
    used' := used + Pow2(curr');
    SubSizeIs(lens, order, n, root, curr' + root, low);
    ok := false;
    low' := -1;
    if Exceeds(kind, used') { return; }
    ok := true;
    low' := WriteLink(table, start, space, kind, lens, order, n, root, huff, low, next, curr, next', curr');
  }

  // The root entry of order[n] points to its sub-table.
  method WriteLink(table: array<Entry>, start: nat, ghost space: nat, kind: CodeType, ghost lens: seq<bitlen>, ghost order: seq<nat>,
                   ghost n: nat, root: nat, huff: nat, ghost low: int, ghost next: nat, ghost curr: nat, next': nat, curr': nat)
    returns (low': nat)
    requires start + space <= table.Length && |lens| <= MaxSymbols(kind) && Kraft(lens) <= Pow2(15)
    requires Sorted(lens, order) && 0 < n < |order| && 1 <= root < lens[order[n]] <= root + curr' <= 15 && huff == Huff(lens, order[n])
    requires LinkSlot(root, lens, order[n]) != low
    requires lens[order[n - 1]] > root ==> low == LinkSlot(root, lens, order[n - 1])
    requires next' == next + Pow2(curr) && Pow2(root) <= next' && next' + Pow2(curr') <= space
    requires SubBound(lens, root, order[n], root + curr')
    requires Placed(Region(table, start, space), root, kind, lens, order, n, low, next, curr)
    modifies table
    ensures OnlyRegion(table, start, space)
    ensures Placed(Region(table, start, space), root, kind, lens, order, n, low', next', curr')
    ensures Ready(Region(table, start, space), root, lens, order[n], low', next', curr', root)
  {
    hide SubBound, Placed, Kraft;
    LoHiIs(huff, root);
    low' := huff % Pow2(root);
    ghost var t := Region(table, start, space);
    table[start + low'] := Entry(curr', root, next');
    assert Region(table, start, space) == t[low' := Entry(curr', root, next')];
    OpenKeeps(t, Region(table, start, space), root, kind, lens, order, n, low, next, curr, low', next', curr');
  }

  // ------------------------------------------------------------ the main loop

  // Everything that holds when symbol order[n] is about to be entered.
  ghost predicate LoopState(t: seq<Entry>, kind: CodeType, lens: seq<bitlen>, order: seq<nat>, n: nat, root: nat,
                            low: int, next: nat, curr: nat, drop: nat, used: nat)
    requires |lens| <= MaxSymbols(kind) && Sorted(lens, order) && n < |order|
  {
    && Ready(t, root, lens, order[n], low, next, curr, drop)
    && Placed(t, root, kind, lens, order, n, low, next, curr)
    && used == next + Pow2(curr) && Pow2(root) <= used
  }

  // The table holds every code word.
  ghost predicate AllPlaced(t: seq<Entry>, kind: CodeType, lens: seq<bitlen>, order: seq<nat>, root: nat, used: nat)
    requires |lens| <= MaxSymbols(kind) && Sorted(lens, order)
  {
    exists low: int, next: nat, curr: nat ::
      Placed(t, root, kind, lens, order, |order|, low, next, curr) && used == next + Pow2(curr)
  }

  // The next symbol uses the table now open.
  lemma StayReady(t: seq<Entry>, root: nat, lens: seq<bitlen>, order: seq<nat>, n: nat, low: int, next: nat, curr: nat, drop: nat)
    requires Sorted(lens, order) && 0 < n < |order|
    requires Ready(t, root, lens, order[n - 1], low, next, curr, drop)
    requires lens[order[n]] <= root || low == LinkSlot(root, lens, order[n])
    ensures Ready(t, root, lens, order[n], low, next, curr, drop)
  {
    OrderMono(lens, order, n - 1, n);
  }

  // After the round for order[n-1]: move to the table of order[n].
  method NextTable(table: array<Entry>, start: nat, ghost space: nat, kind: CodeType, ghost lens: seq<bitlen>, ghost order: seq<nat>,
                   ghost n: nat, root: nat, max: nat, count: array<nat>, huff: nat, len: nat,
                   low: int, next: nat, curr: nat, drop: nat, used: nat)
    returns (ok: bool, low': int, next': nat, curr': nat, drop': nat, used': nat)
    requires start + space <= table.Length && Setup(kind, lens, order, root, max, space)
    requires 0 < n < |order|
    requires len == lens[order[n]] && huff == Huff(lens, order[n])
    requires Counted(count, lens, n)
    requires used == next + Pow2(curr) <= space && Pow2(root) <= used
    requires Ready(Region(table, start, space), root, lens, order[n - 1], low, next, curr, drop)
    requires Placed(Region(table, start, space), root, kind, lens, order, n, low, next, curr)
    requires used == SizeAt(lens, order, n, root)
    modifies table
    ensures OnlyRegion(table, start, space)
    ensures used' == SizeAt(lens, order, n + 1, root)
    ensures !ok ==> Exceeds(kind, used')
    ensures ok ==> LoopState(Region(table, start, space), kind, lens, order, n, root, low', next', curr', drop', used')
    ensures ok ==> used' <= space
  {
    hide SizeAt;
    ok, low', next', curr', drop', used' := true, low, next, curr, drop, used;
    LoHiIs(huff, root);
    if len > root && huff % Pow2(root) != low {
      drop' := root;
      ok, low', next', curr', used' :=
        OpenSub(table, start, space, kind, lens, order, n, root, max, count, huff, len, low, next, curr, used);
    } else {
      StayReady(Region(table, start, space), root, lens, order, n, low, next, curr, drop);
      StaySize(Region(table, start, space), root, lens, order, n, low, next, curr, drop);
    }
  }

  lemma StaySize(t: seq<Entry>, root: nat, lens: seq<bitlen>, order: seq<nat>, n: nat, low: int, next: nat, curr: nat, drop: nat)
    requires Sorted(lens, order) && 0 < n < |order|
    requires Ready(t, root, lens, order[n - 1], low, next, curr, drop)
    requires lens[order[n]] <= root || low == LinkSlot(root, lens, order[n])
    ensures SizeAt(lens, order, n + 1, root) == SizeAt(lens, order, n, root)
  {
    hide SizeAt, SubBound, LinkSlot;
    SizeStay(lens, order, n, root);
  }

  // Counting a symbol off and finding the length of the one after it.
  method CountOff(ghost lens: seq<bitlen>, ghost order: seq<nat>, ghost n: nat, count: array<nat>, len: nat)
    requires Sorted(lens, order) && n < |order| && len == lens[order[n]]
    requires Counted(count, lens, n)
    modifies count
    ensures Counted(count, lens, n + 1)
  {
    forall l | 1 <= l <= 15
      ensures Left(lens, n, l) == Left(lens, n + 1, l) + (if len == l then 1 else 0)
    {
      LeftStep(lens, order, n, l);
    }
    count[len] := count[len] - 1;
  }

  lemma StartState(t: seq<Entry>, kind: CodeType, lens: seq<bitlen>, order: seq<nat>, root: nat, min: nat)
    requires |lens| <= MaxSymbols(kind) && Sorted(lens, order) && 0 < |order|
    requires 1 <= root <= 15 && lens[order[0]] <= root && Pow2(root) <= |t|
    ensures LoopState(t, kind, lens, order, 0, root, -1, 0, root, 0, Pow2(root))
  {}

  // The first half of a round: fill the slots of order[n], step the code, count off.
  method EnterSymbol(table: array<Entry>, start: nat, ghost space: nat, kind: CodeType, lens: seq<bitlen>, ghost order: seq<nat>,
                     ghost n: nat, s: nat, ghost root: nat, ghost max: nat, count: array<nat>, huff: nat, len: nat,
                     ghost low: int, next: nat, curr: nat, drop: nat)
    returns (huff': nat)
    requires start + space <= table.Length
    requires Setup(kind, lens, order, root, max, space)
    requires n < |order| && s == order[n]
    requires len == lens[s] && huff == Huff(lens, s)
    requires Counted(count, lens, n)
    requires Ready(Region(table, start, space), root, lens, s, low, next, curr, drop)
    requires Placed(Region(table, start, space), root, kind, lens, order, n, low, next, curr)
    modifies table, count
    ensures OnlyRegion(table, start, space)
    ensures Placed(Region(table, start, space), root, kind, lens, order, n + 1, low, next, curr)
    ensures Ready(Region(table, start, space), root, lens, s, low, next, curr, drop)
    ensures Counted(count, lens, n + 1)
    ensures n + 1 < |order| ==> huff' == Huff(lens, order[n + 1])
    ensures n + 1 == |order| ==> (huff' == 0 <==> Kraft(lens) == Pow2(15))
    ensures huff' < Pow2(len)
    ensures count[len] > 0 ==> n + 1 < |order| && lens[order[n + 1]] == len
    ensures count[len] == 0 ==> (len == max <==> n + 1 == |order|)
  {
    hide Placed, Ready, Kraft, Counted, Huff, Region, OnlyRegion;
    PutSymbol(table, start, space, kind, lens, order, n, s, root, huff, len, low, next, curr, drop);
    huff' := StepOn(lens, order, n, max, count, huff, len);
  }

  // The code of order[n] is stepped and counted off.
  method StepOn(lens: seq<bitlen>, ghost order: seq<nat>, ghost n: nat, ghost max: nat, count: array<nat>, huff: nat, len: nat)
    returns (huff': nat)
    requires Sorted(lens, order) && n < |order| && Kraft(lens) <= Pow2(15)
    requires 1 <= max <= 15 && (forall i :: 0 <= i < |lens| ==> lens[i] <= max) && (exists i :: 0 <= i < |lens| && lens[i] == max)
    requires len == lens[order[n]] && huff == Huff(lens, order[n]) && Counted(count, lens, n)
    modifies count
    ensures Counted(count, lens, n + 1) && len <= 15 < count.Length
    ensures n + 1 < |order| ==> huff' == Huff(lens, order[n + 1])
    ensures n + 1 == |order| ==> (huff' == 0 <==> Kraft(lens) == Pow2(15))
    ensures huff' < Pow2(len)
    ensures count[len] > 0 ==> n + 1 < |order| && lens[order[n + 1]] == len
    ensures count[len] == 0 ==> (len == max <==> n + 1 == |order|)
  {
    hide Kraft, Left, Pow2;
    CountOff(lens, order, n, count, len);
    CodeFits(lens, order[n]);
    huff' := AdvanceCode(huff, len, Code(lens, order[n]));
    AfterSymbol(lens, order, n, max);
  }

  lemma AfterSymbol(lens: seq<bitlen>, order: seq<nat>, n: nat, max: nat)
    requires Sorted(lens, order) && n < |order| && Kraft(lens) <= Pow2(15)
    requires 1 <= max <= 15 && (forall i :: 0 <= i < |lens| ==> lens[i] <= max) && (exists i :: 0 <= i < |lens| && lens[i] == max)
    ensures n + 1 < |order| ==> Rev(Code(lens, order[n]) + 1, lens[order[n]]) == Huff(lens, order[n + 1])
    ensures n + 1 == |order| ==> (Rev(Code(lens, order[n]) + 1, lens[order[n]]) == 0 <==> Kraft(lens) == Pow2(15))
    ensures Left(lens, n + 1, lens[order[n]]) > 0 ==> n + 1 < |order| && lens[order[n + 1]] == lens[order[n]]
    ensures Left(lens, n + 1, lens[order[n]]) == 0 ==> (lens[order[n]] == max <==> n + 1 == |order|)
  {
    SortedNext(lens, order, n);
    NextLevel(lens, order, n, max);
    if lens[order[n]] < max { MoreToCome(lens, order, n, max); }
    if n + 1 < |order| {
      AdvanceReaches(lens, order[n], order[n + 1]);
    } else {
      AdvanceEnds(lens, order[n]);
    }
  }

  method FillTable(table: array<Entry>, start: nat, ghost space: nat, kind: CodeType, lens: seq<bitlen>,
                   ghost order: seq<nat>, work: array<nat>, count: array<nat>, root: nat, min: nat, max: nat)
    returns (ok: bool, used: nat, huff: nat, len: nat, drop: nat, next: nat)
    requires start + space <= table.Length && Setup(kind, lens, order, root, max, space)
    requires LengthRange(lens, min, max) && min <= root
    requires kind == CODES ==> Pow2(root) <= space
    requires work != count && |order| <= work.Length && work[..|order|] == order
    requires Counted(count, lens, 0)
    modifies table, count
    ensures OnlyRegion(table, start, space)
    ensures ok <==> !Exceeds(kind, TableSize(lens, root))
    ensures ok ==> used == TableSize(lens, root)
    ensures ok ==> Pow2(root) <= used <= space && AllPlaced(Region(table, start, space), kind, lens, order, root, used)
    ensures ok ==> (huff == 0 <==> Kraft(lens) == Pow2(15))
    ensures ok && max <= root ==> drop == next == 0 && len == max && huff < Pow2(len)
  {
    hide TableSize, SizeAt;
    used := Pow2(root);
    RootPart(lens, root);
    if Exceeds(kind, used) { return false, used, 0, min, 0, 0; }
    FirstSymbol(lens, order, min, max);
    StartState(Region(table, start, space), kind, lens, order, root, min);
    ok, used, huff, len, drop, next := FillLoop(table, start, space, kind, lens, order, work, count, root, min, max);
  }

  lemma RootPart(lens: seq<bitlen>, root: nat)
    ensures Pow2(root) <= TableSize(lens, root)
  {}

  method FillLoop(table: array<Entry>, start: nat, ghost space: nat, kind: CodeType, lens: seq<bitlen>,
                  ghost order: seq<nat>, work: array<nat>, count: array<nat>, root: nat, min: nat, max: nat)
    returns (ok: bool, used: nat, huff: nat, len: nat, drop: nat, next: nat)
    requires start + space <= table.Length && Setup(kind, lens, order, root, max, space)
    requires work != count && |order| <= work.Length && work[..|order|] == order
    requires lens[order[0]] == min && Huff(lens, order[0]) == 0
    requires Counted(count, lens, 0) && Pow2(root) <= space
    requires LoopState(Region(table, start, space), kind, lens, order, 0, root, -1, 0, root, 0, Pow2(root))
    modifies table, count
    ensures OnlyRegion(table, start, space)
    ensures ok <==> !Exceeds(kind, TableSize(lens, root))
    ensures ok ==> used == TableSize(lens, root)
    ensures ok ==> Pow2(root) <= used <= space && AllPlaced(Region(table, start, space), kind, lens, order, root, used)
    ensures ok ==> (huff == 0 <==> Kraft(lens) == Pow2(15))
    ensures ok && max <= root ==> drop == next == 0 && len == max && huff < Pow2(len)
  {
    hide TableSize, SizeAt, Kraft, Huff, LinkSlot, SubBound, SymbolEntry, Pow2;
    var low, curr, sym := -1, root, 0;
    next, drop, len := 0, 0, min;
    ok, huff, used := true, 0, Pow2(root);
    StartSize(Region(table, start, space), kind, lens, order, root);
    while true
      invariant 0 <= sym < |order| && work[..|order|] == order
      invariant len == lens[order[sym]] && huff == Huff(lens, order[sym])
      invariant used <= space && used == SizeAt(lens, order, sym + 1, root)
      invariant LoopState(Region(table, start, space), kind, lens, order, sym, root, low, next, curr, drop, used)
      invariant Counted(count, lens, sym)
      invariant OnlyRegion(table, start, space)
      decreases |order| - sym
    {
      assert work[sym] == order[sym];
      huff := EnterSymbol(table, start, space, kind, lens, order, sym, work[sym], root, max, count, huff, len, low, next, curr, drop);
      sym := sym + 1;
      if count[len] == 0 {
        if len == max { break; }
        assert work[sym] == order[sym];
        len := lens[work[sym]];
      }
      SizeEnd(lens, order, sym + 1, root);
      ok, low, next, curr, drop, used :=
        NextTable(table, start, space, kind, lens, order, sym, root, max, count, huff, len, low, next, curr, drop, used);
      if !ok { return; }
    }
    SizeEnd(lens, order, sym, root);
  }

  lemma StartSize(t: seq<Entry>, kind: CodeType, lens: seq<bitlen>, order: seq<nat>, root: nat)
    requires |lens| <= MaxSymbols(kind) && Sorted(lens, order) && 0 < |order|
    requires LoopState(t, kind, lens, order, 0, root, -1, 0, root, 0, Pow2(root))
    ensures SizeAt(lens, order, 1, root) == Pow2(root)
  {
    hide SizeAt, LinkSlot;
    SizeStart(lens, order, root);
  }

  lemma FirstSymbol(lens: seq<bitlen>, order: seq<nat>, min: nat, max: nat)
    requires LengthRange(lens, min, max) && max > 0 && Sorted(lens, order) && 0 < |order|
    requires Kraft(lens) <= Pow2(15)
    ensures lens[order[0]] == min && Huff(lens, order[0]) == 0
  {
    var s :| 0 <= s < |lens| && lens[s] == min;
    var k := SortedCovers(lens, order, s);
    OrderMono(lens, order, 0, k);
    SortedFirst(lens, order);
    HuffStart(lens, order[0]);
    RevOfZero(15);
  }

  // ------------------------------------------------------------ the result

  lemma TruncateRoot(t: seq<Entry>, root: nat, kind: CodeType, lens: seq<bitlen>, s: nat, used: nat)
    requires |lens| <= MaxSymbols(kind) && s < |lens|
    requires RootFilled(t, root, kind, lens, s) && Pow2(root) <= used <= |t|
    ensures RootFilled(t[..used], root, kind, lens, s)
  {
    assert t[..used][..Pow2(root)] == t[..Pow2(root)];
  }

  lemma TruncateSub(t: seq<Entry>, root: nat, kind: CodeType, lens: seq<bitlen>, s: nat, end: nat, used: nat)
    requires |lens| <= MaxSymbols(kind) && s < |lens| && root < lens[s]
    requires SubFilled(t, root, kind, lens, s, end) && Pow2(root) <= used <= |t| && end <= used
    ensures SubFilled(t[..used], root, kind, lens, s, end)
  {
    hide Fills, IsLink, LinkSlot, SymbolEntry;
    var link := t[LinkSlot(root, lens, s)];
    assert t[..used][link.val..link.val + Pow2(link.op)] == t[link.val..link.val + Pow2(link.op)];
  }

  lemma TruncatePlaced(t: seq<Entry>, root: nat, kind: CodeType, lens: seq<bitlen>, s: nat, low: int, next: nat, curr: nat, used: nat)
    requires |lens| <= MaxSymbols(kind) && s < |lens|
    requires PlacedAt(t, root, kind, lens, s, low, next, curr)
    requires used == next + Pow2(curr) <= |t| && Pow2(root) <= used
    ensures PlacedAt(t[..used], root, kind, lens, s, low, next, curr)
  {
    if lens[s] <= root {
      TruncateRoot(t, root, kind, lens, s, used);
    } else {
      TruncateSub(t, root, kind, lens, s, if LinkSlot(root, lens, s) == low then next + Pow2(curr) else next, used);
    }
  }

  lemma PlacedFinds(t: seq<Entry>, root: nat, kind: CodeType, lens: seq<bitlen>, s: nat, low: int, next: nat, curr: nat, h: nat)
    requires |lens| <= MaxSymbols(kind) && Coded(lens, s)
    requires PlacedAt(t, root, kind, lens, s, low, next, curr)
    requires Lo(h, lens[s]) == Huff(lens, s)
    ensures Finds(t, root, h, SymbolEntry(kind, s, lens[s]))
  {
    if lens[s] <= root {
      RootFinds(t, root, kind, lens, s, h);
    } else {
      SubFinds(t, root, kind, lens, s, if LinkSlot(root, lens, s) == low then next + Pow2(curr) else next, h);
    }
  }

  ghost predicate DecodesWords(t: seq<Entry>, root: nat, kind: CodeType, lens: seq<bitlen>)
    requires |lens| <= MaxSymbols(kind)
  {
    forall s: nat, h: nat {:trigger Lo(h, lens[s])} | Coded(lens, s) && Lo(h, lens[s]) == Huff(lens, s) ::
      Finds(t, root, h, SymbolEntry(kind, s, lens[s]))
  }

  lemma WordsDecode(t: seq<Entry>, root: nat, kind: CodeType, lens: seq<bitlen>, order: seq<nat>, used: nat)
    requires |lens| <= MaxSymbols(kind) && Sorted(lens, order)
    requires AllPlaced(t, kind, lens, order, root, used) && Pow2(root) <= used <= |t|
    ensures DecodesWords(t[..used], root, kind, lens)
  {
    var low: int, next: nat, curr: nat :|
      Placed(t, root, kind, lens, order, |order|, low, next, curr) && used == next + Pow2(curr);
    forall s: nat, h: nat | Coded(lens, s) && Lo(h, lens[s]) == Huff(lens, s)
      ensures Finds(t[..used], root, h, SymbolEntry(kind, s, lens[s]))
    {
      var k := SortedCovers(lens, order, s);
      assert PlacedAt(t, root, kind, lens, order[k], low, next, curr);
      TruncatePlaced(t, root, kind, lens, s, low, next, curr, used);
      PlacedFinds(t[..used], root, kind, lens, s, low, next, curr, h);
    }
  }

  lemma CompleteTable(t: seq<Entry>, root: nat, kind: CodeType, lens: seq<bitlen>)
    requires |lens| <= MaxSymbols(kind) && Kraft(lens) == Pow2(15) && 1 <= root <= 15
    requires DecodesWords(t, root, kind, lens)
    ensures Decodes(t, root, kind, lens)
  {
    forall h: nat ensures !Undecodable(lens, h) {
      var s := CompleteDecodes(lens, h);
    }
  }

  // One symbol with a one-bit code: slot 0 is that symbol, slot 1 is invalid.
  lemma LoneSymbol(lens: seq<bitlen>, order: seq<nat>)
    requires Sorted(lens, order) && |order| > 0 && Kraft(lens) < Pow2(15)
    requires forall s :: 0 <= s < |lens| ==> lens[s] <= 1
    ensures forall s: nat :: Coded(lens, s) ==> s == order[0]
    ensures Huff(lens, order[0]) == 0
  {
    hide Rev;
    SortedFirst(lens, order);
    HuffStart(lens, order[0]);
    RevOfZero(15);
    forall s: nat | Coded(lens, s) ensures s == order[0] {
      var k := SortedCovers(lens, order, s);
      if k > 0 {
        OrderMono(lens, order, 0, k);
        CoversBelowKraft(lens, s);
      }
    }
  }

  lemma LoneTable(t: seq<Entry>, kind: CodeType, lens: seq<bitlen>, order: seq<nat>, used: nat)
    requires |lens| <= MaxSymbols(kind) && Sorted(lens, order) && |order| > 0 && Kraft(lens) < Pow2(15)
    requires forall s :: 0 <= s < |lens| ==> lens[s] <= 1
    requires AllPlaced(t, kind, lens, order, 1, used) && 2 <= used <= |t|
    ensures Decodes(t[1 := Entry(64, 1, 0)][..used], 1, kind, lens)
  {
    var t' := t[1 := Entry(64, 1, 0)][..used];
    LoneSymbol(lens, order);
    var s0 := order[0];
    var low: int, next: nat, curr: nat :|
      Placed(t, 1, kind, lens, order, |order|, low, next, curr) && used == next + Pow2(curr);
    assert PlacedAt(t, 1, kind, lens, s0, low, next, curr);
    assert t[..Pow2(1)][0] == t[0] == SymbolEntry(kind, s0, 1);
    SymbolIsNoLink(kind, s0, 1);
    forall h: nat | Undecodable(lens, h) ensures Finds(t', 1, h, Entry(64, 1, 0)) {
      assert Lo(h, lens[s0]) != 0;
      assert Lo(h, 1) == h % 2 == 1;
    }
  }

  // A set of lengths inflate_table accepts: complete, or no code at all, or (not for
  // the code length code) a single one-bit word.
  ghost predicate Acceptable(kind: CodeType, lens: seq<bitlen>) {
    || (forall s :: 0 <= s < |lens| ==> lens[s] == 0)
    || Kraft(lens) == Pow2(15)
    || (kind != CODES && Kraft(lens) < Pow2(15) && forall s :: 0 <= s < |lens| ==> lens[s] <= 1)
  }

  lemma EmptyTable(t: seq<Entry>, kind: CodeType, lens: seq<bitlen>)
    requires |lens| <= MaxSymbols(kind) && forall s :: 0 <= s < |lens| ==> lens[s] == 0
    requires t == [Entry(64, 1, 0), Entry(64, 1, 0)]
    ensures Decodes(t, 1, kind, lens)
  {}

  predicate SomeCode(lens: seq<bitlen>) { exists s :: 0 <= s < |lens| && lens[s] != 0 }

  // The index bits of the root table: as asked for, but no fewer than the shortest code word and
  // no more than the longest.
  ghost predicate RootBits(lens: seq<bitlen>, bits: nat, root: nat) {
    if SomeCode(lens) then
      exists min: nat, max: nat ::
        LengthRange(lens, min, max) && max > 0 && root == if bits > max then max else if bits < min then min else bits
    else root == 1
  }

  method InflateTable(kind: CodeType, lens: seq<bitlen>, table: array<Entry>, start: nat, bits: nat, work: array<nat>)
    returns (ret: int, next: nat, root: nat)
    requires |lens| <= MaxSymbols(kind) && |lens| <= work.Length && 1 <= bits <= 15
    requires kind == CODES ==> forall s :: 0 <= s < |lens| ==> lens[s] <= bits
    requires start + Space(kind, bits) <= table.Length
    modifies table, work
    ensures OnlyRegion(table, start, Space(kind, bits))
    ensures ret == 0 || ret == -1 || ret == 1
    ensures RootBits(lens, bits, root)
    ensures ret == -1 <==> !Acceptable(kind, lens)
    ensures ret == 1 <==> Acceptable(kind, lens) && SomeCode(lens) && Exceeds(kind, TableSize(lens, root))
    ensures ret == 0 ==> start <= next <= start + Space(kind, bits) && Decodes(table[start..next], root, kind, lens)
    ensures ret == 0 ==> next == start + if SomeCode(lens) then TableSize(lens, root) else 2
    ensures ret == 0 && kind == CODES ==> forall s :: 0 <= s < |lens| ==> lens[s] <= root
  {
    hide TableSize, Acceptable, RootBits, SomeCode, LengthRange, Kraft, Exceeds, Decodes, Sorted, Pow2, Count;
    ghost var space := Space(kind, bits);
    var count := CountLens(lens);
    var min, max := FindRange(lens, count);
    AcceptableIs(kind, lens, min, max);
    next, root := start, if bits > max then max else bits;
    if max == 0 {
      NoCodeRoot(lens, bits, min, max);
      ret, root := 0, 1;
      TwoSpace(kind, bits);
      next := ForceErrors(table, start, space, kind, lens);
      return;
    }
    MinMost(lens, min, max);
    if root < min { root := min; }
    RootFits(kind, lens, bits, root, min, max);
    var left := CheckLengths(lens, count);
    SortSymbols(lens, count, work);
    if left < 0 || (left > 0 && (kind == CODES || max != 1)) {
      return -1, next, root;
    }
    ret, next := BuildTable(kind, lens, table, start, space, work, count, root, min, max);
  }

  lemma TwoSpace(kind: CodeType, bits: nat)
    requires bits >= 1
    ensures Space(kind, bits) >= 2
  {}

  lemma MinMost(lens: seq<bitlen>, min: nat, max: nat)
    requires LengthRange(lens, min, max) && max > 0
    ensures 1 <= min <= max <= 15
  {}

  lemma NoCodeRoot(lens: seq<bitlen>, bits: nat, min: nat, max: nat)
    requires LengthRange(lens, min, max) && max == 0
    ensures RootBits(lens, bits, 1) && forall s :: 0 <= s < |lens| ==> lens[s] == 0
  {}

  lemma AcceptableIs(kind: CodeType, lens: seq<bitlen>, min: nat, max: nat)
    requires LengthRange(lens, min, max)
    ensures SomeCode(lens) <==> max > 0
    ensures Acceptable(kind, lens) <==>
      max == 0 || Kraft(lens) == Pow2(15) || (kind != CODES && Kraft(lens) < Pow2(15) && max == 1)
  {}

  // No symbols at all: a table whose every lookup is an error.
  method ForceErrors(table: array<Entry>, start: nat, ghost space: nat, kind: CodeType, ghost lens: seq<bitlen>) returns (next: nat)
    requires start + space <= table.Length && space >= 2
    requires |lens| <= MaxSymbols(kind) && forall s :: 0 <= s < |lens| ==> lens[s] == 0
    modifies table
    ensures OnlyRegion(table, start, space)
    ensures next == start + 2 && Decodes(table[start..next], 1, kind, lens)
  {
    table[start] := Entry(64, 1, 0);
    table[start + 1] := Entry(64, 1, 0);
    next := start + 2;
    EmptyTable(table[start..next], kind, lens);
  }

  lemma RootFits(kind: CodeType, lens: seq<bitlen>, bits: nat, root: nat, min: nat, max: nat)
    requires LengthRange(lens, min, max) && max > 0 && 1 <= bits <= 15
    requires root == if bits > max then max else if bits < min then min else bits
    requires kind == CODES ==> forall s :: 0 <= s < |lens| ==> lens[s] <= bits
    ensures min <= root <= max && RootBits(lens, bits, root)
    ensures kind == CODES ==> root == max && Pow2(root) <= Space(kind, bits)
    ensures kind == CODES ==> forall s :: 0 <= s < |lens| ==> lens[s] <= root
  {
    if kind == CODES {
      var s :| 0 <= s < |lens| && lens[s] == max;
      Pow2Mono(root, bits);
    }
  }

  method BuildTable(kind: CodeType, lens: seq<bitlen>, table: array<Entry>, start: nat, ghost space: nat,
                    work: array<nat>, count: array<nat>, root: nat, min: nat, max: nat)
    returns (ret: int, next: nat)
    requires start + space <= table.Length && work != count
    requires |lens| <= MaxSymbols(kind) && |lens| <= work.Length && 1 <= root <= 15
    requires LengthRange(lens, min, max) && max > 0 && min <= root <= max
    requires kind == CODES ==> max <= root && Pow2(root) <= space
    requires kind != CODES ==> space == Space(kind, 0)
    requires Kraft(lens) <= Pow2(15) && (Kraft(lens) < Pow2(15) ==> max == 1)
    requires SymbolCount(lens) <= work.Length && Sorted(lens, work[..SymbolCount(lens)])
    requires count.Length == 16 && forall l :: 0 <= l <= 15 ==> count[l] == Count(lens, |lens|, l)
    modifies table, count
    ensures OnlyRegion(table, start, space)
    ensures ret == if Exceeds(kind, TableSize(lens, root)) then 1 else 0
    ensures ret == 0 ==> next == start + TableSize(lens, root) <= start + space
    ensures ret == 0 ==> Decodes(table[start..next], root, kind, lens)
  {
    hide TableSize;
    ghost var order := work[..SymbolCount(lens)];
    SomeSymbol(lens, max);
    forall l | 1 <= l <= 15 ensures Left(lens, 0, l) == Count(lens, |lens|, l) { LeftAtStart(lens, l); }
    var ok, used, huff, len, drop, sub :=
      FillTable(table, start, space, kind, lens, order, work, count, root, min, max);
    if !ok { return 1, start; }
    ret := 0;
    next := Finish(table, start, space, kind, lens, order, root, used, huff, len, drop, sub);
  }

  method Finish(table: array<Entry>, start: nat, ghost space: nat, kind: CodeType, ghost lens: seq<bitlen>,
                ghost order: seq<nat>, ghost root: nat, used: nat, huff: nat, len: nat, drop: nat, sub: nat)
    returns (next: nat)
    requires start + space <= table.Length
    requires |lens| <= MaxSymbols(kind) && Sorted(lens, order) && |order| > 0 && Kraft(lens) <= Pow2(15)
    requires 1 <= root <= 15 && Pow2(root) <= used <= space
    requires AllPlaced(Region(table, start, space), kind, lens, order, root, used)
    requires huff == 0 <==> Kraft(lens) == Pow2(15)
    requires huff != 0 ==> root == huff == len == 1 && drop == sub == 0 && forall s :: 0 <= s < |lens| ==> lens[s] <= 1
    modifies table
    ensures OnlyRegion(table, start, space)
    ensures next == start + used && Decodes(table[start..next], root, kind, lens)
  {
    next := start + used;
    if huff != 0 {
      MarkInvalid(table, start, space, kind, lens, order, used, start + sub + huff, len - drop);
    } else {
      WordsDecode(Region(table, start, space), root, kind, lens, order, used);
      CompleteTable(Region(table, start, space)[..used], root, kind, lens);
    }
    RegionPrefix(table, start, space, used);
    DecodesSame(table[start..next], Region(table, start, space)[..used], root, kind, lens);
  }

  lemma DecodesSame(t: seq<Entry>, u: seq<Entry>, root: nat, kind: CodeType, lens: seq<bitlen>)
    requires |lens| <= MaxSymbols(kind) && t == u && Decodes(u, root, kind, lens)
    ensures Decodes(t, root, kind, lens)
  {}

  lemma RegionPrefix(table: array<Entry>, start: nat, space: nat, used: nat)
    requires start + space <= table.Length && used <= space
    ensures table[start..start + used] == Region(table, start, space)[..used]
  {}

  // An incomplete code leaves one slot, the second of a two-slot table.
  method MarkInvalid(table: array<Entry>, start: nat, ghost space: nat, kind: CodeType, ghost lens: seq<bitlen>,
                     ghost order: seq<nat>, ghost used: nat, at: nat, bits: nat)
    requires start + space <= table.Length && at == start + 1 && bits == 1
    requires |lens| <= MaxSymbols(kind) && Sorted(lens, order) && |order| > 0 && Kraft(lens) < Pow2(15)
    requires forall s :: 0 <= s < |lens| ==> lens[s] <= 1
    requires 2 <= used <= space && AllPlaced(Region(table, start, space), kind, lens, order, 1, used)
    modifies table
    ensures OnlyRegion(table, start, space)
    ensures Decodes(Region(table, start, space)[..used], 1, kind, lens)
  {
    ghost var t := Region(table, start, space);
    table[at] := Entry(64, bits, 0);
    assert Region(table, start, space) == t[1 := Entry(64, 1, 0)];
    LoneTable(t, kind, lens, order, used);
  }

  lemma SomeSymbol(lens: seq<bitlen>, max: nat)
    requires max > 0 && exists s :: 0 <= s < |lens| && lens[s] == max
    ensures SymbolCount(lens) > 0
  {
    var s :| 0 <= s < |lens| && lens[s] == max;
    RankStrict(lens, s, 16, 0);
  }
}
