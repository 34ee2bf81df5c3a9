// A session that enters inflate_fast with eight bits held (deps/zlib/inflate.c:1026-1029): its
// code has words of nine bits, and the first byte of one came alone.

module EntryWitness {
  import opened Powers
  import opened Bits
  import opened Canonical
  import opened TableLayout
  import opened TableSpace
  import opened BlockDecoding
  import opened BitReader
  import opened EntryLookup
  import opened InflateState
  import opened Inflate
  import opened EntryBits
  import T = InflateTable

  const LONG: seq<bitlen> := [1, 2, 3, 4, 5, 6, 7, 8, 9, 9]
  const ONE_DIST: seq<bitlen> := [1]

  lemma Widths()
    ensures Width(9) == 64 && Width(8) == 128 && Width(7) == 256 && Width(6) == 512 && Width(5) == 1024
    ensures Width(4) == 2048 && Width(3) == 4096 && Width(2) == 8192 && Width(1) == 16384 == Pow2(14) && Pow2(15) == 32768
  {
    assert Pow2(8) == 256;
  }

  lemma LongKraft()
    ensures Kraft(LONG) == Pow2(15) && Kraft(ONE_DIST) == Pow2(14) < Pow2(15)
    ensures Usable(LONG) && Usable(ONE_DIST)
  {
    hide Width;
    Widths();
    assert Below(LONG, 3, 16, 0) == 28672;
    assert Below(LONG, 6, 16, 0) == 32256;
    assert Below(LONG, 9, 16, 0) == 32704;
  }

  // A table without long words is its root table.
  lemma NoSlots(lens: seq<bitlen>, root: nat)
    requires forall s :: 0 <= s < |lens| ==> lens[s] <= root
    ensures TableSize(lens, root) == Pow2(root)
  {
    assert Slots(lens, root) == {};
    SumNone(lens, root, Pow2(root));
  }

  lemma {:induction false} SumNone(lens: seq<bitlen>, root: nat, n: nat)
    ensures SlotSum(lens, root, {}, n) == 0
  {
    if n > 0 { SumNone(lens, root, n - 1); }
  }

  lemma LongRoot(root: nat)
    requires T.RootBits(LONG, 9, root)
    ensures root == 9
  {
    assert LONG[9] == 9;
  }

  lemma LongAcceptable()
    ensures T.SomeCode(LONG) && T.Acceptable(LENS, LONG) && TableSize(LONG, 9) == 512
  {
    hide Kraft, TableSize;
    LongKraft();
    assert LONG[0] == 1;
    NoSlots(LONG, 9);
    assert Pow2(8) == 256;
  }

  lemma OneTable(root: nat)
    requires T.RootBits(ONE_DIST, 6, root)
    ensures root == 1 && TableSize(ONE_DIST, root) == 2 && T.SomeCode(ONE_DIST) && T.Acceptable(DISTS, ONE_DIST)
  {
    LongKraft();
    assert ONE_DIST[0] == 1;
    NoSlots(ONE_DIST, 1);
  }

  method LengthTable() returns (t: seq<Entry>, root: nat)
    ensures Ready(t, root, LENS, LONG)
  {
    hide Pow2, Kraft, Decodes, TableSize, Usable, T.RootBits, T.SomeCode, T.Acceptable;
    LongKraft();
    var table, work := new Entry[T.ENOUGH_LENS], new nat[10];
    var ret, next;
    ret, next, root := T.InflateTable(LENS, LONG, table, 0, 9, work);
    LongRoot(root);
    LongAcceptable();
    t := table[..next];
    assert table[0..next] == t;
  }

  method DistanceTable() returns (t: seq<Entry>, root: nat)
    ensures Ready(t, root, DISTS, ONE_DIST)
  {
    hide Pow2, Kraft, Decodes, TableSize, Usable, T.RootBits, T.SomeCode, T.Acceptable;
    LongKraft();
    var table, work := new Entry[T.ENOUGH_DISTS], new nat[1];
    var ret, next;
    ret, next, root := T.InflateTable(DISTS, ONE_DIST, table, 0, 6, work);
    OneTable(root);
    t := table[..next];
    assert table[0..next] == t;
  }

  method NewBlock() returns (st: State)
    ensures Session(st) && st.mode == LEN && st.src.Rest() == [] && st.codes == Codes(LONG, ONE_DIST)
    ensures fresh(st) && fresh(st.src) && fresh(st.win) && fresh(st.win.window)
  {
    hide Ready, Usable, Kraft, Pow2, Session, Idle, State.Core, State.Lean;
    LongKraft();
    var t, root := LengthTable();
    var t', root' := DistanceTable();
    st := new State(32768, t, root, t', root', Codes(LONG, ONE_DIST));
    Opened(st);
  }

  lemma Opened(st: State)
    requires st.Valid() && st.start == st.put && st.win.window.Length >= 32768
    requires st.mode == LEN && st.origin == Conf(LEN, 0, 0, 0, [], [], 0)
    requires st.Out() == [] && st.src.Rest() == [] && st.win.whave == 0
    ensures Session(st)
  {
    hide State.Valid;
    NewSession(st);
  }

  // inflate_fast entered with eight bits held.
  method EnteredWithEight() returns (st: State)
    ensures st.Valid() && st.mode == LEN && st.src.next + 6 <= |st.src.input| && 258 <= st.left && st.src.bits == 8
  {
    hide State.Valid, Session, Huff, Lo;
    st := NewBlock();
    assert Pow2(8) == 256;
    var dest := new byte[258];
    LongWordEnters(st, 8, Lo(Huff(LONG, 8), 8), [0, 0, 0, 0, 0, 0], dest);
  }
}
