// The decoder's bit accumulator: the PULLBYTE, NEEDBITS, BITS and DROPBITS macros of
// deps/zlib/inflate.c, and looking up one code word with them.

module BitReader {
  import opened Powers
  import opened Bits
  import opened Canonical
  import opened TableLayout
  import opened BlockDecoding

  // The bits waiting in the accumulator, then those of the bytes not yet taken.
  function RestOf(hold: nat, bits: nat, more: seq<byte>): seq<bool> {
    BitsOf(hold, bits) + BytesToBits(more)
  }

  lemma PullKeepsRest(hold: nat, bits: nat, input: seq<byte>, next: nat)
    requires hold < Pow2(bits) && next < |input|
    ensures RestOf(Join(input[next], hold, bits), bits + 8, input[next + 1..]) == RestOf(hold, bits, input[next..])
    ensures Join(input[next], hold, bits) < Pow2(bits + 8)
  {
    AppendBits(hold, bits, input[next], 8);
    assert input[next..][1..] == input[next + 1..];
    Assoc(BitsOf(hold, bits), BitsOf(input[next], 8), BytesToBits(input[next + 1..]));
    JoinBound(input[next], hold, bits, 8);
  }

  lemma DropFromRest(hold: nat, bits: nat, more: seq<byte>, n: nat)
    requires hold < Pow2(bits) && n <= bits
    ensures n <= |RestOf(hold, bits, more)|
    ensures RestOf(Hi(hold, n), bits - n, more) == RestOf(hold, bits, more)[n..]
    ensures Val(RestOf(hold, bits, more)[..n]) == Lo(hold, n)
    ensures Hi(hold, n) < Pow2(bits - n)
  {
    var rest := RestOf(hold, bits, more);
    BitsOfSplit(hold, n, bits);
    assert rest[..n] == BitsOf(hold, n);
    assert rest[n..] == BitsOf(Hi(hold, n), bits - n) + BytesToBits(more);
    ValBitsOf(hold, n);
    HiFits(hold, n, bits);
  }

  lemma LowOfRest(hold: nat, bits: nat, more: seq<byte>, n: nat)
    requires hold < Pow2(bits) && n <= bits
    ensures n <= |RestOf(hold, bits, more)| && Lo(Val(RestOf(hold, bits, more)), n) == Lo(hold, n)
  {
    DropFromRest(hold, bits, more, n);
    ValSplit(RestOf(hold, bits, more), n);
  }

  class Reader {
    var input: seq<byte>
    var next: nat
    var hold: nat
    var bits: nat

    ghost predicate Valid()
      reads this
    {
      next <= |input| && bits <= 32 && hold < Pow2(bits)
    }

    ghost function Rest(): seq<bool>
      requires next <= |input|
      reads this
    {
      RestOf(hold, bits, input[next..])
    }

    constructor ()
      ensures Valid() && Rest() == []
    {
      input, next, hold, bits := [], 0, 0, 0;
    }

    // More input: what was not read yet, then the new bytes.
    method Feed(more: seq<byte>)
      requires Valid()
      modifies `input, `next
      ensures Valid() && Rest() == old(Rest()) + BytesToBits(more)
    {
      var left := input[next..];
      BytesToBitsConcat(left, more);
      Assoc(BitsOf(hold, bits), BytesToBits(left), BytesToBits(more));
      input, next := left + more, 0;
      assert input[0..] == input;
    }

    method PullByte() returns (ok: bool)
      requires Valid() && bits <= 24
      modifies `next, `hold, `bits
      ensures Valid() && Rest() == old(Rest())
      ensures ok <==> old(next) < |input|
      ensures ok ==> bits == old(bits) + 8 && next == old(next) + 1 && Lo(hold, old(bits)) == old(hold)
      ensures !ok ==> bits == old(bits) && next == old(next) && hold == old(hold)
    {
      ok := next < |input|;
      if ok {
        PullKeepsRest(hold, bits, input, next);
        LoOfJoin(input[next], hold, bits);
        hold := hold + input[next] * Pow2(bits);
        next := next + 1;
        bits := bits + 8;
      }
    }

    method NeedBits(n: nat) returns (ok: bool)
      requires Valid() && n <= 16
      modifies `next, `hold, `bits
      ensures Valid() && Rest() == old(Rest()) && old(next) <= next
      ensures ok ==> n <= bits
      ensures !ok ==> bits < n && next == |input|
      ensures bits == old(bits) || bits < n + 8
    {
      ok := true;
      while bits < n
        invariant Valid() && Rest() == old(Rest()) && old(next) <= next && ok
        invariant bits == old(bits) || bits < n + 8
        decreases |input| - next
      {
        ok := PullByte();
        if !ok { return; }
      }
    }

    lemma RestIs()
      requires next <= |input|
      ensures Rest() == RestOf(hold, bits, input[next..])
    {}

    lemma BitsInRest()
      requires next <= |input|
      ensures bits <= |Rest()|
    {}

    lemma AllTaken()
      requires Valid() && next == |input|
      ensures |Rest()| == bits
    {
      assert input[next..] == [];
    }

    // BITS(n); bits above those available read as 0.
    function Peek(n: nat): (r: nat)
      reads this
      ensures r == Lo(hold, n)
    {
      LoHiIs(hold, n);
      hold % Pow2(n)
    }

    method DropBits(n: nat)
      requires Valid() && n <= bits
      modifies `hold, `bits
      ensures Valid() && n <= |old(Rest())| && Rest() == old(Rest())[n..]
      ensures bits == old(bits) - n && hold == Hi(old(hold), n)
    {
      DropFromRest(hold, bits, input[next..], n);
      LoHiIs(hold, n);
      hold := hold / Pow2(n);
      bits := bits - n;
    }

    // Reads n bits as a number.
    method TakeBits(n: nat) returns (v: nat)
      requires Valid() && n <= bits
      modifies `hold, `bits
      ensures Valid() && n <= |old(Rest())| && Rest() == old(Rest())[n..] && v == Val(old(Rest())[..n])
      ensures bits == old(bits) - n
    {
      DropFromRest(hold, bits, input[next..], n);
      v := Peek(n);
      DropBits(n);
    }
  }

  // ------------------------------------------------------------ one lookup

  // Code lengths a decoding table can be built from.
  ghost predicate Usable(lens: seq<bitlen>) {
    Kraft(lens) == Pow2(15) || (Kraft(lens) < Pow2(15) && forall s :: 0 <= s < |lens| ==> lens[s] <= 1)
  }

  // What the table entry for accumulator value h says about h.
  ghost predicate EntryTells(kind: CodeType, lens: seq<bitlen>, h: nat, e: Entry)
    requires |lens| <= MaxSymbols(kind)
  {
    || (exists s: nat :: Coded(lens, s) && Lo(h, lens[s]) == Huff(lens, s) && e == SymbolEntry(kind, s, lens[s]))
    || (Undecodable(lens, h) && e == Entry(64, 1, 0))
  }

  lemma TableTells(t: seq<Entry>, root: nat, kind: CodeType, lens: seq<bitlen>, h: nat) returns (e: Entry)
    requires |lens| <= MaxSymbols(kind) && Decodes(t, root, kind, lens)
    ensures Finds(t, root, h, e) && EntryTells(kind, lens, h, e)
  {
    if Undecodable(lens, h) {
      e := Entry(64, 1, 0);
    } else {
      var s: nat :| Coded(lens, s) && Lo(h, lens[s]) == Huff(lens, s);
      e := SymbolEntry(kind, s, lens[s]);
    }
  }

  // What a lookup must produce: the symbol's entry, or the invalid marker.
  ghost predicate Answers(kind: CodeType, lens: seq<bitlen>, look: Look, e: Entry)
    requires |lens| <= MaxSymbols(kind)
  {
    match look
    case Found(s) => s < MaxSymbols(kind) && s < |lens| && e.bits == lens[s] && e == SymbolEntry(kind, s, e.bits)
    case Wrong => e == Entry(64, 1, 0)
    case More => false
  }

  // An entry whose bits are all there decides the lookup.
  lemma EnoughBits(kind: CodeType, lens: seq<bitlen>, hold: nat, bits: nat, more: seq<byte>, e: Entry)
    requires |lens| <= MaxSymbols(kind) && Usable(lens) && hold < Pow2(bits)
    requires EntryTells(kind, lens, hold, e) && e.bits <= bits
    ensures Answers(kind, lens, LookUp(lens, RestOf(hold, bits, more)), e)
  {
    hide RestOf, LookUp, SymbolEntry, Usable, Huff, Lo, Val, Pow2, Undecodable;
    var rest := RestOf(hold, bits, more);
    LowOfRest(hold, bits, more, e.bits);
    UsableKraft(lens);
    if s: nat :| Coded(lens, s) && Lo(hold, lens[s]) == Huff(lens, s) && e == SymbolEntry(kind, s, lens[s]) {
      SymbolBits(kind, s, lens[s]);
      LookUpIs(lens, rest, s);
    } else {
      OneBitWrong(lens, hold, rest);
    }
  }

  lemma UsableKraft(lens: seq<bitlen>)
    requires Usable(lens)
    ensures Kraft(lens) <= Pow2(15)
  {}

  lemma SymbolBits(kind: CodeType, s: nat, bits: nat)
    requires s < MaxSymbols(kind)
    ensures SymbolEntry(kind, s, bits).bits == bits
  {}

  lemma OneBitWrong(lens: seq<bitlen>, h: nat, rest: seq<bool>)
    requires Usable(lens) && Undecodable(lens, h) && |rest| >= 1 && Lo(Val(rest), 1) == Lo(h, 1)
    ensures LookUp(lens, rest) == Wrong
  {
    if Kraft(lens) == Pow2(15) {
      var s := CompleteDecodes(lens, h);
    }
    forall s: nat | Coded(lens, s) ensures Lo(Val(rest), lens[s]) != Huff(lens, s) {}
  }

  // Without enough bits for the entry, the lookup is open.
  lemma TooFewBits(kind: CodeType, lens: seq<bitlen>, hold: nat, bits: nat, e: Entry)
    requires |lens| <= MaxSymbols(kind) && Usable(lens) && hold < Pow2(bits)
    requires EntryTells(kind, lens, hold, e) && e.bits > bits
    ensures LookUp(lens, RestOf(hold, bits, [])) == More
  {
    hide Pow2, BitsOf, Val, Huff, Lo;
    var rest := RestOf(hold, bits, []);
    assert rest == BitsOf(hold, bits);
    ValBitsOf(hold, bits);
    LoSmall(hold, bits);
    if s: nat :| Coded(lens, s) && Lo(hold, lens[s]) == Huff(lens, s) && e == SymbolEntry(kind, s, lens[s]) {
      if LookUp(lens, rest).Found? {
        PrefixFree(lens, s, LookUp(lens, rest).sym, hold);
      }
    }
  }

  // ------------------------------------------------------------ no byte too many

  // The accumulator without its last byte does not hold a whole code word.
  ghost predicate Tight(lens: seq<bitlen>, hold: nat, bits: nat) {
    bits < 8 || LookUp(lens, BitsOf(hold, bits - 8)) == More
  }

  // Less than a byte is held, or what is held decides no code word: so between states.
  ghost predicate Undecided(lens: seq<bitlen>, hold: nat, bits: nat) {
    bits < 8 || LookUp(lens, BitsOf(hold, bits)) == More
  }

  lemma UndecidedTight(lens: seq<bitlen>, hold: nat, bits: nat)
    requires Usable(lens) && hold < Pow2(bits) && Undecided(lens, hold, bits)
    ensures Tight(lens, hold, bits)
  {
    hide LookUp, Usable, BitsOf, Pow2;
    if bits >= 8 {
      BitsOfSplit(hold, bits - 8, bits);
      MoreOnFewer(lens, BitsOf(hold, bits - 8), BitsOf(Hi(hold, bits - 8), 8));
    }
  }

  // An open lookup was open on fewer bits.
  lemma MoreOnFewer(lens: seq<bitlen>, bs: seq<bool>, more: seq<bool>)
    requires Usable(lens) && LookUp(lens, bs + more) == More
    ensures LookUp(lens, bs) == More
  {
    match LookUp(lens, bs)
    case Found(s) =>
      FrontMatches(lens, bs, more, s);
    case Wrong =>
      WrongExtends(lens, bs, more);
    case More =>
  }

  lemma WrongExtends(lens: seq<bitlen>, bs: seq<bool>, more: seq<bool>)
    requires Usable(lens) && LookUp(lens, bs) == Wrong
    ensures LookUp(lens, bs + more) == Wrong
  {
    ValSplit(bs, 1);
    ValSplit(bs + more, 1);
    assert (bs + more)[..1] == bs[..1];
    OneBitWrong(lens, Val(bs), bs + more);
  }

  lemma PullTight(kind: CodeType, lens: seq<bitlen>, hold: nat, bits: nat, e: Entry, hold': nat)
    requires |lens| <= MaxSymbols(kind) && Usable(lens) && hold < Pow2(bits)
    requires EntryTells(kind, lens, hold, e) && e.bits > bits && Lo(hold', bits) == hold
    ensures Tight(lens, hold', bits + 8)
  {
    TooFewBits(kind, lens, hold, bits, e);
    BitsOfLow(hold', bits);
    assert RestOf(hold, bits, []) == BitsOf(hold, bits);
  }

  // So the code word found takes more than that: less than a byte is left.
  lemma TightTakes(kind: CodeType, lens: seq<bitlen>, hold: nat, bits: nat, more: seq<byte>, e: Entry)
    requires |lens| <= MaxSymbols(kind) && Usable(lens) && Tight(lens, hold, bits) && hold < Pow2(bits)
    requires Answers(kind, lens, LookUp(lens, RestOf(hold, bits, more)), e)
    ensures bits < e.bits + 8
  {
    hide LookUp, SymbolEntry, BitsOf, RestOf, Usable, Answers, Pow2;
    if bits >= e.bits + 8 {
      var b := bits - 8;
      RestSplit(hold, bits, more, b);
      FewerAnswers(kind, lens, BitsOf(hold, b), BitsOf(Hi(hold, b), 8) + BytesToBits(more), e);
    }
  }

  lemma RestSplit(hold: nat, bits: nat, more: seq<byte>, b: nat)
    requires b <= bits
    ensures RestOf(hold, bits, more) == BitsOf(hold, b) + (BitsOf(Hi(hold, b), bits - b) + BytesToBits(more))
  {
    hide BitsOf;
    BitsOfSplit(hold, b, bits);
    Assoc(BitsOf(hold, b), BitsOf(Hi(hold, b), bits - b), BytesToBits(more));
  }

  lemma FrontVal(bs: seq<bool>, more: seq<bool>, n: nat)
    requires n <= |bs|
    ensures Lo(Val(bs), n) == Lo(Val(bs + more), n)
  {
    hide Val, Lo;
    ValSplit(bs, n);
    ValSplit(bs + more, n);
    assert (bs + more)[..n] == bs[..n];
  }

  lemma FewerAnswers(kind: CodeType, lens: seq<bitlen>, bs: seq<bool>, more: seq<bool>, e: Entry)
    requires |lens| <= MaxSymbols(kind) && Usable(lens) && e.bits <= |bs|
    requires Answers(kind, lens, LookUp(lens, bs + more), e)
    ensures LookUp(lens, bs) != More
  {
    hide Usable, Huff, Lo, Val, Pow2, SymbolEntry, Undecodable;
    UsableKraft(lens);
    FrontVal(bs, more, e.bits);
    match LookUp(lens, bs + more)
    case Found(s) =>
      LookUpIs(lens, bs, s);
    case Wrong =>
      OneBitWrong(lens, Val(bs + more), bs);
  }
}
