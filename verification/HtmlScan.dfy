// Finding the first HTML metacharacter (src/runtime/core.cpp:654-662, 798-823): eight bytes at a
// time by subtracting one from every byte at once, in spite of the borrows that pass between them.

module HtmlScan {
  import opened Words

  // & < > " '
  predicate Meta(c: bv8) { c == 38 || c == 60 || c == 62 || c == 34 || c == 39 }

  // The first metacharacter at or after i, or the length.
  function First(s: seq<bv8>, i: nat): (r: nat)
    requires i <= |s|
    ensures i <= r <= |s|
    ensures forall j :: i <= j < r ==> !Meta(s[j])
    ensures r < |s| ==> Meta(s[r])
    decreases |s| - i
  {
    if i == |s| || Meta(s[i]) then i else First(s, i + 1)
  }

  // Spelt out: the five bytes that end the scan, and no other.
  lemma FirstIs(s: seq<bv8>, i: nat)
    requires i <= |s|
    ensures var r := First(s, i);
      && (forall j | i <= j < r :: s[j] != 38 && s[j] != 60 && s[j] != 62 && s[j] != 34 && s[j] != 39)
      && (r < |s| ==> s[r] == 38 || s[r] == 60 || s[r] == 62 || s[r] == 34 || s[r] == 39)
  {
    var r := First(s, i);
    forall j | i <= j < r ensures s[j] != 38 && s[j] != 60 && s[j] != 62 && s[j] != 34 && s[j] != 39 {
      assert !Meta(s[j]);
    }
  }

  lemma {:induction false} FirstSkips(s: seq<bv8>, i: nat, k: nat)
    requires i <= k <= |s| && forall j :: i <= j < k ==> !Meta(s[j])
    ensures First(s, i) == First(s, k)
    decreases k - i
  {
    if i < k { FirstSkips(s, i + 1, k); }
  }

  // kyte_html_scan: one byte after another.
  method Scan(s: seq<bv8>, from: nat) returns (r: nat)
    ensures r == if from <= |s| then First(s, from) else |s|
  {
    var i := from;
    while i < |s|
      invariant from <= |s| ==> i <= |s| && First(s, i) == First(s, from)
      invariant from > |s| ==> i == from
    {
      if Meta(s[i]) { return i; }
      i := i + 1;
    }
    r := |s|;
  }

  // ------------------------------------------------------------ lanes

  // Byte k of a word, from the least significant.
  function Lane(w: bv64, k: nat): bv64
    requires k < 8
  {
    if k == 0 then w & 0xff
    else if k == 1 then (w >> 8) & 0xff
    else if k == 2 then (w >> 16) & 0xff
    else if k == 3 then (w >> 24) & 0xff
    else if k == 4 then (w >> 32) & 0xff
    else if k == 5 then (w >> 40) & 0xff
    else if k == 6 then (w >> 48) & 0xff
    else w >> 56
  }

  const ONES: bv64 := 0x0101_0101_0101_0101
  const HIGH: bv64 := 0x8080_8080_8080_8080

  // 0x80 in every byte that is zero, up to the first one.
  function Marks(z: bv64): bv64 { (z - ONES) & !z & HIGH }

  predicate NoneZero(z: bv64, k: nat)
    requires k <= 8
  {
    forall j :: 0 <= j < k ==> Lane(z, j) != 0
  }

  lemma LowMarks(z: bv64)
    ensures Lane(Marks(z), 0) == if Lane(z, 0) == 0 then 0x80 else 0
    ensures Lane(z, 0) != 0 ==> Lane(Marks(z), 1) == if Lane(z, 1) == 0 then 0x80 else 0
    ensures Lane(z, 0) != 0 && Lane(z, 1) != 0 ==> Lane(Marks(z), 2) == if Lane(z, 2) == 0 then 0x80 else 0
  {}

  lemma MiddleMarks(z: bv64)
    requires Lane(z, 0) != 0 && Lane(z, 1) != 0 && Lane(z, 2) != 0
    ensures Lane(Marks(z), 3) == if Lane(z, 3) == 0 then 0x80 else 0
    ensures Lane(z, 3) != 0 ==> Lane(Marks(z), 4) == if Lane(z, 4) == 0 then 0x80 else 0
    ensures Lane(z, 3) != 0 && Lane(z, 4) != 0 ==> Lane(Marks(z), 5) == if Lane(z, 5) == 0 then 0x80 else 0
  {}

  lemma TopMarks(z: bv64)
    requires Lane(z, 0) != 0 && Lane(z, 1) != 0 && Lane(z, 2) != 0 && Lane(z, 3) != 0 && Lane(z, 4) != 0 && Lane(z, 5) != 0
    ensures Lane(Marks(z), 6) == if Lane(z, 6) == 0 then 0x80 else 0
    ensures Lane(z, 6) != 0 ==> Lane(Marks(z), 7) == if Lane(z, 7) == 0 then 0x80 else 0
  {}

  // No borrow reaches byte k unless a byte below it is zero.
  lemma MarksAt(z: bv64, k: nat)
    requires k < 8 && NoneZero(z, k)
    ensures Lane(Marks(z), k) == if Lane(z, k) == 0 then 0x80 else 0
  {
    hide Lane, Marks;
    LowMarks(z);
    if k >= 3 {
      MiddleMarks(z);
      if k >= 6 { TopMarks(z); }
    }
  }

  function Or(a: bv64, b: bv64): bv64 { a | b }

  function Xor(a: bv64, b: bv64): bv64 { a ^ b }

  lemma LowOr(a: bv64, b: bv64, k: nat)
    requires k < 4
    ensures Lane(Or(a, b), k) == Or(Lane(a, k), Lane(b, k))
  {
    if k == 0 {
    } else if k == 1 {
    } else if k == 2 {
    } else {
    }
  }

  lemma HighOr(a: bv64, b: bv64, k: nat)
    requires 4 <= k < 8
    ensures Lane(Or(a, b), k) == Or(Lane(a, k), Lane(b, k))
  {
    if k == 4 {
    } else if k == 5 {
    } else if k == 6 {
    } else {
    }
  }

  lemma LaneOr(a: bv64, b: bv64, k: nat)
    requires k < 8
    ensures Lane(Or(a, b), k) == Or(Lane(a, k), Lane(b, k))
  {
    hide Lane, Or;
    if k < 4 { LowOr(a, b, k); } else { HighOr(a, b, k); }
  }

  lemma LowXor(a: bv64, b: bv64, k: nat)
    requires k < 4
    ensures Lane(Xor(a, b), k) == Xor(Lane(a, k), Lane(b, k))
  {
    if k == 0 {
    } else if k == 1 {
    } else if k == 2 {
    } else {
    }
  }

  lemma HighXor(a: bv64, b: bv64, k: nat)
    requires 4 <= k < 8
    ensures Lane(Xor(a, b), k) == Xor(Lane(a, k), Lane(b, k))
  {
    if k == 4 {
    } else if k == 5 {
    } else if k == 6 {
    } else {
    }
  }

  lemma LaneXor(a: bv64, b: bv64, k: nat)
    requires k < 8
    ensures Lane(Xor(a, b), k) == Xor(Lane(a, k), Lane(b, k))
  {
    hide Lane, Xor;
    if k < 4 { LowXor(a, b, k); } else { HighXor(a, b, k); }
  }

  // A byte repeated eight times.
  predicate Repeats(r: bv64, c: bv64) {
    forall k :: 0 <= k < 8 ==> Lane(r, k) == c
  }

  const N_AMP := ONES * 38
  const N_LT := ONES * 60
  const N_GT := ONES * 62
  const N_QT := ONES * 34
  const N_SQ := ONES * 39

  lemma Needles()
    ensures Repeats(N_AMP, 38) && Repeats(N_LT, 60) && Repeats(N_GT, 62) && Repeats(N_QT, 34) && Repeats(N_SQ, 39)
  {}

  lemma SameIsZero(a: bv64, b: bv64)
    ensures Xor(a, b) == 0 <==> a == b
  {
    hide Xor;
    if a == b { XorSelf(a); }
    if Xor(a, b) == 0 {
      XorBack(a, b);
      XorZero(b);
    }
  }

  lemma XorSelf(a: bv64)
    ensures Xor(a, a) == 0
  {}

  lemma XorZero(a: bv64)
    ensures Xor(0, a) == a
  {}

  lemma XorBack(a: bv64, b: bv64)
    ensures Xor(Xor(a, b), b) == a
  {}

  // The marks of one needle.
  lemma NeedleAt(w: bv64, r: bv64, c: bv64, k: nat)
    requires k < 8 && Repeats(r, c)
    requires forall j :: 0 <= j < k ==> Lane(w, j) != c
    ensures Lane(Marks(Xor(w, r)), k) == if Lane(w, k) == c then 0x80 else 0
  {
    hide Lane, Marks, Xor;
    forall j | 0 <= j <= k ensures Lane(Xor(w, r), j) == 0 <==> Lane(w, j) == c {
      LaneXor(w, r, j);
      SameIsZero(Lane(w, j), c);
    }
    MarksAt(Xor(w, r), k);
  }

  // All five together.
  function Found(w: bv64): bv64 {
    Or(Marks(Xor(w, N_AMP)), Or(Marks(Xor(w, N_LT)), Or(Marks(Xor(w, N_GT)),
      Or(Marks(Xor(w, N_QT)), Marks(Xor(w, N_SQ))))))
  }

  predicate MetaLane(w: bv64, k: nat)
    requires k < 8
  {
    var c := Lane(w, k);
    c == 38 || c == 60 || c == 62 || c == 34 || c == 39
  }

  lemma FoundAt(w: bv64, k: nat)
    requires k < 8 && forall j :: 0 <= j < k ==> !MetaLane(w, j)
    ensures Lane(Found(w), k) == if MetaLane(w, k) then 0x80 else 0
  {
    hide Lane, Marks, Repeats, Or, Xor;
    Needles();
    forall j | 0 <= j < k
      ensures Lane(w, j) != 38 && Lane(w, j) != 60 && Lane(w, j) != 62 && Lane(w, j) != 34 && Lane(w, j) != 39
    {
      assert !MetaLane(w, j);
    }
    NeedleAt(w, N_AMP, 38, k);
    NeedleAt(w, N_LT, 60, k);
    NeedleAt(w, N_GT, 62, k);
    NeedleAt(w, N_QT, 34, k);
    NeedleAt(w, N_SQ, 39, k);
    var a, b, c, d, e := Marks(Xor(w, N_AMP)), Marks(Xor(w, N_LT)), Marks(Xor(w, N_GT)),
      Marks(Xor(w, N_QT)), Marks(Xor(w, N_SQ));
    LaneOr(d, e, k);
    LaneOr(c, Or(d, e), k);
    LaneOr(b, Or(c, Or(d, e)), k);
    LaneOr(a, Or(b, Or(c, Or(d, e))), k);
    OrMarks();
  }

  lemma OrMarks()
    ensures Or(0, 0) == 0 && Or(0x80, 0) == 0x80 && Or(0, 0x80) == 0x80 && Or(0x80, 0x80) == 0x80
  {}

  // ------------------------------------------------------------ counting trailing zeros

  function TrailingInByte(b: bv64): nat {
    if b & 1 != 0 then 0 else if b & 2 != 0 then 1 else if b & 4 != 0 then 2 else if b & 8 != 0 then 3
    else if b & 16 != 0 then 4 else if b & 32 != 0 then 5 else if b & 64 != 0 then 6 else 7
  }

  // The zero bits below the lowest one that is set, from byte k up.
  function TrailingFrom(m: bv64, k: nat): nat
    requires k <= 8
    decreases 8 - k
  {
    if k == 8 then 64
    else if Lane(m, k) != 0 then 8 * k + TrailingInByte(Lane(m, k))
    else TrailingFrom(m, k + 1)
  }

  function Trailing(m: bv64): nat { TrailingFrom(m, 0) }

  lemma AllLanes(m: bv64)
    requires Lane(m, 0) == 0 && Lane(m, 1) == 0 && Lane(m, 2) == 0 && Lane(m, 3) == 0
    requires Lane(m, 4) == 0 && Lane(m, 5) == 0 && Lane(m, 6) == 0 && Lane(m, 7) == 0
    ensures m == 0
  {}

  lemma ZeroLane(k: nat)
    requires k < 8
    ensures Lane(0, k) == 0
  {}

  // The first byte marked, or 8.
  function FirstLane(w: bv64, k: nat): (r: nat)
    requires k <= 8
    ensures k <= r <= 8
    ensures forall j :: k <= j < r ==> !MetaLane(w, j)
    ensures r < 8 ==> MetaLane(w, r)
    decreases 8 - k
  {
    if k == 8 || MetaLane(w, k) then k else FirstLane(w, k + 1)
  }

  lemma Eighty()
    ensures TrailingInByte(0x80) == 7
  {}

  lemma {:induction false} FoundFrom(w: bv64, k: nat)
    requires k <= 8 && forall j :: 0 <= j < k ==> !MetaLane(w, j)
    ensures FirstLane(w, k) < 8 ==> TrailingFrom(Found(w), k) == 8 * FirstLane(w, k) + 7
    ensures FirstLane(w, k) == 8 ==> forall j :: k <= j < 8 ==> Lane(Found(w), j) == 0
    ensures FirstLane(w, k) < 8 ==> Lane(Found(w), FirstLane(w, k)) != 0
    decreases 8 - k
  {
    hide Lane, Found, MetaLane, TrailingInByte;
    if k < 8 {
      FoundAt(w, k);
      Eighty();
      if !MetaLane(w, k) { FoundFrom(w, k + 1); }
    }
  }

  // The word is clear, or its lowest mark is at the first metacharacter.
  lemma FoundFirst(w: bv64)
    ensures Found(w) == 0 <==> FirstLane(w, 0) == 8
    ensures Found(w) != 0 ==> Trailing(Found(w)) / 8 == FirstLane(w, 0)
  {
    hide Lane, Found, MetaLane, TrailingFrom;
    FoundFrom(w, 0);
    if FirstLane(w, 0) == 8 {
      AllLanes(Found(w));
    } else {
      ZeroLane(FirstLane(w, 0));
    }
  }

  // ------------------------------------------------------------ the scan

  lemma LaneShifted(a: Word, k: nat)
    requires k < 7
    ensures Lane(Shifted(a).w, k) == Lane(a.w, k + 1)
  {
    if k == 0 {
    } else if k == 1 {
    } else if k == 2 {
    } else if k == 3 {
    } else if k == 4 {
    } else if k == 5 {
    } else {
    }
  }

  lemma {:induction false} LaneLater(a: Word, n: nat, k: nat)
    requires n + k < 8
    ensures Lane(Later(a, n).w, k) == Lane(a.w, n + k)
  {
    hide Lane, Shifted;
    if n > 0 {
      LaneShifted(Later(a, n - 1), k);
      LaneLater(a, n - 1, k + 1);
    }
  }

  lemma LaneZero(a: Word)
    ensures Lane(a.w, 0) == FirstByte(a) as bv64
  {}

  lemma LaneLoaded(s: seq<bv8>, k: nat)
    requires |s| == 8 && k < 8
    ensures Lane(Load(s).w, k) == s[k] as bv64
  {
    hide Lane, Later, Load, FirstByte;
    LoadAt(s, k);
    LaneLater(Load(s), k, 0);
    LaneZero(Later(Load(s), k));
  }

  lemma WideByte(c: bv8, n: bv8)
    ensures c as bv64 == n as bv64 <==> c == n
  {}

  lemma MetaLoaded(s: seq<bv8>, k: nat)
    requires |s| == 8 && k < 8
    ensures MetaLane(Load(s).w, k) <==> Meta(s[k])
  {
    hide Lane, Load;
    LaneLoaded(s, k);
    WideByte(s[k], 38);
    WideByte(s[k], 60);
    WideByte(s[k], 62);
    WideByte(s[k], 34);
    WideByte(s[k], 39);
  }

  // Eight bytes at once.
  lemma ChunkFirst(s: seq<bv8>, i: nat)
    requires i + 8 <= |s|
    ensures var r := FirstLane(Load(s[i..i + 8]).w, 0);
      First(s, i) == if r < 8 then i + r else First(s, i + 8)
  {
    hide Load, MetaLane, Meta;
    var t := s[i..i + 8];
    var r := FirstLane(Load(t).w, 0);
    forall j | 0 <= j < 8 ensures MetaLane(Load(t).w, j) <==> Meta(s[i + j]) {
      MetaLoaded(t, j);
    }
    forall j | i <= j < i + r ensures !Meta(s[j]) {
      assert !MetaLane(Load(t).w, j - i);
    }
    FirstSkips(s, i, i + r);
  }

  // One word.
  method Chunk(s: seq<bv8>, i: nat) returns (hit: bool, r: nat)
    requires i + 8 <= |s|
    ensures if hit then r == First(s, i) < i + 8 else First(s, i) == First(s, i + 8)
  {
    hide Load, Found, Trailing, FirstLane, First;
    var w := Load(s[i..i + 8]).w;
    var m := Found(w);
    FoundFirst(w);
    ChunkFirst(s, i);
    hit, r := m != 0, 0;
    if hit { r := i + Trailing(m) / 8; }
  }

  // ------------------------------------------------------------ 32-bit indices

  const INT_MAX := 0x7fff_ffff

  type i32 = x: int | -0x8000_0000 <= x <= INT_MAX

  // Where the search begins.
  function From(start: i32): nat { if start < 0 then 0 else start }

  // The first place, in steps of eight from i, to which 8 cannot be added.
  function Edge(i: nat): nat
    requires i <= INT_MAX
  {
    i + (INT_MAX - i) / 8 * 8
  }

  lemma EdgeSteps(from: nat, i: nat)
    requires from <= i <= INT_MAX && (i - from) % 8 == 0
    ensures i <= Edge(from) && (i + 8 > INT_MAX <==> i == Edge(from)) && (i < Edge(from) ==> i + 8 <= Edge(from))
  {}

  // The index of the word loop overflows: the search begins at the edge, or comes to it.
  predicate Overflows(s: seq<bv8>, start: i32) {
    s != [] && var from, edge := From(start), Edge(From(start));
    from == edge || (edge <= |s| && First(s, from) >= edge)
  }

  // kyte_html_find_meta: the index the simple scan gives, for every buffer and start for which
  // the index does not overflow.
  method FindMeta(s: seq<bv8>, start: i32) returns (r: nat, overflow: bool)
    requires |s| <= INT_MAX
    ensures overflow <==> Overflows(s, start)
    ensures !overflow ==> var from: nat := if start < 0 then 0 else start; r == if from <= |s| then First(s, from) else |s|
  {
    hide Meta, Edge;
    r, overflow := |s|, false;
    if |s| == 0 { return; }
    var i: i32 := if start < 0 then 0 else start;
    ghost var from := i;
    EdgeSteps(from, i);
    while true
      invariant from <= i && (i - from) % 8 == 0 && (from < i ==> i <= |s|) && i <= Edge(from)
      invariant from <= |s| ==> First(s, i) == First(s, from)
      decreases INT_MAX - i
    {
      EdgeSteps(from, i);
      if i > INT_MAX - 8 { return r, true; }
      if i + 8 > |s| { break; }
      var hit, at := Chunk(s, i);
      if hit { return at, false; }
      i := i + 8;
      EdgeSteps(from, i);
    }
    // the byte loop again
    r := Scan(s, i);
  }

  // One that does: any start in the last eight.
  lemma LateStart()
    ensures Overflows([97], INT_MAX - 3)
  {}

  // Short of the last nine sizes and starts there is no overflow.
  lemma NoOverflow(s: seq<bv8>, start: i32)
    requires |s| <= INT_MAX - 8 && start <= INT_MAX - 8
    ensures !Overflows(s, start)
  {}
}
