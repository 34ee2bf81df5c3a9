// How many bits are held when inflate_fast is entered (deps/zlib/inffast.c:23-29 and
// deps/zlib/inflate.c:1026-1029). Less than eight in every state that enters it, exactly when
// no literal/length word is longer than eight bits: state LEN keeps what it could not use.

module EntryBits {
  import opened Powers
  import opened Bits
  import opened Canonical
  import opened TableLayout
  import opened BlockDecoding
  import opened BitReader
  import opened EntryLookup
  import opened InflateState
  import opened InflateRuns
  import opened Inflate

  predicate ShortWords(lens: seq<bitlen>) {
    forall s :: 0 <= s < |lens| ==> lens[s] <= 8
  }

  // Eight bits decide a code of short words.
  lemma ShortDecided(lens: seq<bitlen>, hold: nat, bits: nat)
    requires Usable(lens) && ShortWords(lens) && hold < Pow2(bits) && 8 <= bits
    ensures LookUp(lens, BitsOf(hold, bits)) != More
  {
    hide Pow2, BitsOf, Val, Huff, Lo, Kraft;
    ValBitsOf(hold, bits);
    LoSmall(hold, bits);
    if !Undecodable(lens, hold) {
      var s: nat :| Coded(lens, s) && Lo(hold, lens[s]) == Huff(lens, s);
      assert Matches(lens, BitsOf(hold, bits), s);
    }
  }

  // The first eight bits of a longer word decide nothing.
  lemma LongUndecided(lens: seq<bitlen>, s: nat) returns (h: nat)
    requires Usable(lens) && s < |lens| && lens[s] > 8
    ensures h == Lo(Huff(lens, s), 8) < Pow2(8) && LookUp(lens, BitsOf(h, 8)) == More && Undecided(lens, h, 8)
  {
    hide Pow2, BitsOf, Val, Huff, Lo, Kraft;
    var w := Huff(lens, s);
    h := Lo(w, 8);
    var bs := BitsOf(h, 8);
    ValBitsOf(h, 8);
    LoSmall(h, 8);
    assert Coded(lens, s);
    LoSmall(w, lens[s]);
    forall t: nat | t < |lens| && lens[t] <= 8 && Coded(lens, t) ensures Lo(h, lens[t]) != Huff(lens, t) {
      LoLo(w, lens[t], 8);
      if Lo(h, lens[t]) == Huff(lens, t) { PrefixFree(lens, s, t, w); }
    }
    var d := CompleteDecodes(lens, h);
  }

  // So every state that LEN can be left in, for want of input, holds less than a byte if and
  // only if no word is longer than eight bits.
  lemma EntryBitsIff(lens: seq<bitlen>)
    requires Usable(lens)
    ensures ShortWords(lens) <==>
            forall hold: nat, bits: nat :: hold < Pow2(bits) && Undecided(lens, hold, bits) ==> bits < 8
  {
    if ShortWords(lens) {
      forall hold: nat, bits: nat | hold < Pow2(bits) && Undecided(lens, hold, bits) ensures bits < 8 {
        if bits >= 8 { ShortDecided(lens, hold, bits); }
      }
    } else {
      var s :| 0 <= s < |lens| && lens[s] > 8;
      var h := LongUndecided(lens, s);
    }
  }

  // Whatever state enters inflate_fast with short words holds less than a byte.
  lemma ShortEntry(st: State)
    requires st.Valid() && st.mode == LEN && ShortWords(st.codes.llens)
    ensures st.src.bits < 8
  {
    hide State.Output, Undecided, Ready, ShortWords, Pow2;
    ReadyUsable(st.lencode, st.lenbits, LENS, st.codes.llens);
    EntryBitsIff(st.codes.llens);
  }

  lemma StuckStays(p: Codes, a: Conf, c: Conf)
    requires Step(p, a).None? && Runs(p, a, c)
    ensures c == a
  {
    hide Step;
    var n: nat :| Steps(p, a, n) == Some(c);
  }

  // And whatever the code, if a word is longer: given its first byte and nothing else, then six
  // bytes and room enough, any session between two words enters inflate_fast with eight bits.
  method LongWordEnters(st: State, ghost s: nat, first: byte, six: seq<byte>, dest: array<byte>)
    requires Session(st) && st.mode == LEN && st.src.Rest() == []
    requires s < |st.codes.llens| && st.codes.llens[s] > 8 && first == Lo(Huff(st.codes.llens, s), 8)
    requires |six| == 6 && 258 <= dest.Length && dest != st.win.window
    modifies st, st.src, st.win, st.win.window, dest
    ensures st.Valid() && st.mode == LEN && st.src.next + 6 <= |st.src.input| && 258 <= st.left
    ensures st.src.bits == 8 && st.codes == old(st.codes)
  {
    hide State.Output, State.Decoding, State.Lean, State.Out, State.Seen, Runs, Step, Pow2, BitsOf, Huff, Lo;
    ghost var p, a := st.codes, st.Abs();
    ghost var h := LongUndecided(p.llens, s);
    ghost var c := InflateCall(st, [first], dest, 0, 0);
    OneByte(first);
    assert Feed(a, BytesToBits([first])).rest == BitsOf(first, 8);
    StuckAtLen(p, Feed(a, BytesToBits([first])));
    StuckStays(p, Feed(a, BytesToBits([first])), c);
    st.src.AllTaken();
    Begin(st, six, dest, 0, 258);
    BytesLeft(st.src);
  }

  lemma BytesLeft(r: Reader)
    requires r.Valid()
    ensures |r.Rest()| == r.bits + 8 * (|r.input| - r.next)
  {}

  lemma OneByte(b: byte)
    ensures BytesToBits([b]) == BitsOf(b, 8)
  {
    hide BitsOf;
    assert [b][1..] == [];
    assert BytesToBits([b]) == BitsOf(b, 8) + BytesToBits([]);
  }

  lemma StuckAtLen(p: Codes, c: Conf)
    requires c.mode == LEN && LookUp(p.llens, c.rest) == More
    ensures Step(p, c).None?
  {}
}
