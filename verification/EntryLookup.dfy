// Decoding one code word the careful way: the lookup loops of states LEN and DIST
// (deps/zlib/inflate.c:1035-1054, 1088-1105), which pull input one byte at a time.

module EntryLookup {
  import opened Powers
  import opened Bits
  import opened Canonical
  import opened TableLayout
  import opened BlockDecoding
  import opened BitReader

  ghost predicate Ready(t: seq<Entry>, root: nat, kind: CodeType, lens: seq<bitlen>) {
    && |lens| <= MaxSymbols(kind) && Usable(lens) && Decodes(t, root, kind, lens)
  }

  // The root entry for h is either the answer or a link of root bits.
  ghost predicate AtRoot(t: seq<Entry>, root: nat, h: nat, here: Entry, e: Entry) {
    && here in t && e.bits <= 15
    && (if IsLink(here) then here.bits == root <= e.bits else here == e)
  }

  lemma RootTells(t: seq<Entry>, root: nat, kind: CodeType, lens: seq<bitlen>, h: nat) returns (e: Entry)
    requires Ready(t, root, kind, lens)
    ensures Lo(h, root) < |t| && AtRoot(t, root, h, t[Lo(h, root)], e)
    ensures Finds(t, root, h, e) && EntryTells(kind, lens, h, e)
    ensures !IsLink(e) && (kind == DISTS ==> e.op >= 16)
  {
    e := TableTells(t, root, kind, lens, h);
    TellsBits(kind, lens, h, e);
  }

  lemma TellsBits(kind: CodeType, lens: seq<bitlen>, h: nat, e: Entry)
    requires |lens| <= MaxSymbols(kind) && EntryTells(kind, lens, h, e)
    ensures e.bits <= 15 && !IsLink(e) && (kind == DISTS ==> e.op >= 16)
  {
    hide Huff, Lo, SymbolEntry;
    if s: nat :| Coded(lens, s) && Lo(h, lens[s]) == Huff(lens, s) && e == SymbolEntry(kind, s, lens[s]) {
      SymbolKind(kind, s, lens[s]);
    }
  }

  lemma SymbolKind(kind: CodeType, s: nat, bits: nat)
    requires s < MaxSymbols(kind)
    ensures SymbolEntry(kind, s, bits).bits == bits && !IsLink(SymbolEntry(kind, s, bits))
    ensures kind == DISTS ==> SymbolEntry(kind, s, bits).op >= 16
  {}

  lemma ReadyUsable(t: seq<Entry>, root: nat, kind: CodeType, lens: seq<bitlen>)
    requires Ready(t, root, kind, lens)
    ensures Usable(lens) && |lens| <= MaxSymbols(kind)
  {}

  method RootEntry(r: Reader, table: seq<Entry>, root: nat, kind: CodeType, ghost lens: seq<bitlen>)
    returns (ok: bool, here: Entry, ghost e: Entry)
    requires r.Valid() && |lens| <= MaxSymbols(kind) && Ready(table, root, kind, lens)
    requires Tight(lens, r.hold, r.bits)
    modifies r`next, r`hold, r`bits
    ensures r.Valid() && r.Rest() == old(r.Rest()) && old(r.next) <= r.next && Tight(lens, r.hold, r.bits)
    ensures ok ==> here.bits <= r.bits && AtRoot(table, root, r.hold, here, e)
    ensures ok ==> Lo(r.hold, root) < |table| && here == table[Lo(r.hold, root)]
    ensures !ok ==> r.next == |r.input| && LookUp(lens, r.Rest()) == More
  {
    hide Ready, Finds, EntryTells, Tight, LookUp, Usable, Lo, Hi, Pow2;
    e := RootTells(table, root, kind, lens, r.hold);
    ReadyUsable(table, root, kind, lens);
    here := table[r.Peek(root)];
    ok := true;
    while here.bits > r.bits
      invariant r.Valid() && r.Rest() == old(r.Rest()) && ok && old(r.next) <= r.next
      invariant Tight(lens, r.hold, r.bits)
      invariant AtRoot(table, root, r.hold, here, e) && EntryTells(kind, lens, r.hold, e)
      invariant Lo(r.hold, root) < |table| && here == table[Lo(r.hold, root)]
      decreases |r.input| - r.next
    {
      ghost var h, b := r.hold, r.bits;
      ok := r.PullByte();
      if !ok {
        StuckAtRoot(r, table, root, kind, lens, e);
        return;
      }
      PullTight(kind, lens, h, b, e, r.hold);
      e := RootTells(table, root, kind, lens, r.hold);
      here := table[r.Peek(root)];
    }
  }

  lemma StuckAtRoot(r: Reader, t: seq<Entry>, root: nat, kind: CodeType, lens: seq<bitlen>, e: Entry)
    requires r.Valid() && r.next == |r.input| && Ready(t, root, kind, lens)
    requires EntryTells(kind, lens, r.hold, e) && e.bits > r.bits
    ensures LookUp(lens, r.Rest()) == More
  {
    hide LookUp, EntryTells;
    assert r.input[r.next..] == [];
    TooFewBits(kind, lens, r.hold, r.bits, e);
  }

  // The sub-table index the source forms from the accumulator.
  lemma SubIndex(h: nat, a: nat, b: nat)
    ensures Hi(Lo(h, a + b), a) == Lo(Hi(h, a), b)
  {
    LoSplit(h, a, b);
    LoOfJoin(Lo(Hi(h, a), b), Lo(h, a), a);
  }

  lemma SubTells(t: seq<Entry>, root: nat, kind: CodeType, lens: seq<bitlen>, h: nat, last: Entry) returns (e: Entry)
    requires Ready(t, root, kind, lens) && IsLink(last)
    requires Lo(h, root) < |t| && last == t[Lo(h, root)]
    ensures last.bits == root && last.val + Lo(Hi(h, root), last.op) < |t|
    ensures var sub := t[last.val + Lo(Hi(h, root), last.op)]; e == sub.(bits := root + sub.bits)
    ensures EntryTells(kind, lens, h, e) && e.bits <= 15
  {
    e := RootTells(t, root, kind, lens, h);
  }

  function SubSlot(r: Reader, table: seq<Entry>, last: Entry): (here: Entry)
    requires last.val + Lo(Hi(r.hold, last.bits), last.op) < |table|
    reads r
    ensures here == table[last.val + Lo(Hi(r.hold, last.bits), last.op)]
  {
    SubIndex(r.hold, last.bits, last.op);
    LoHiIs(r.Peek(last.bits + last.op), last.bits);
    table[last.val + r.Peek(last.bits + last.op) / Pow2(last.bits)]
  }

  // Through a link: the second loop.
  method SubEntry(r: Reader, table: seq<Entry>, root: nat, kind: CodeType, ghost lens: seq<bitlen>, last: Entry)
    returns (ok: bool, here: Entry)
    requires r.Valid() && |lens| <= MaxSymbols(kind) && Ready(table, root, kind, lens) && IsLink(last)
    requires root <= r.bits && Lo(r.hold, root) < |table| && last == table[Lo(r.hold, root)]
    requires Tight(lens, r.hold, r.bits)
    modifies r`next, r`hold, r`bits
    ensures r.Valid() && r.Rest() == old(r.Rest()) && old(r.next) <= r.next && Tight(lens, r.hold, r.bits)
    ensures ok ==> last.bits + here.bits <= r.bits && last.bits == root &&
                   EntryTells(kind, lens, r.hold, here.(bits := root + here.bits))
    ensures !ok ==> r.next == |r.input| && LookUp(lens, r.Rest()) == More
  {
    hide Ready, EntryTells, LookUp, Tight, Usable, Lo, Hi, Pow2;
    ghost var e := SubTells(table, root, kind, lens, r.hold, last);
    ReadyUsable(table, root, kind, lens);
    here := SubSlot(r, table, last);
    ok := true;
    while last.bits + here.bits > r.bits
      invariant r.Valid() && r.Rest() == old(r.Rest()) && ok && old(r.next) <= r.next
      invariant root <= r.bits && Lo(r.hold, root) < |table| && last == table[Lo(r.hold, root)]
      invariant Tight(lens, r.hold, r.bits)
      invariant e == here.(bits := root + here.bits) && EntryTells(kind, lens, r.hold, e) && e.bits <= 15
      decreases |r.input| - r.next
    {
      ghost var h, b := r.hold, r.bits;
      ok := r.PullByte();
      if !ok {
        StuckAtRoot(r, table, root, kind, lens, e);
        return;
      }
      PullTight(kind, lens, h, b, e, r.hold);
      PullKeepsLow(h, r.hold, b, root);
      e := SubTells(table, root, kind, lens, r.hold, last);
      here := SubSlot(r, table, last);
    }
  }

  lemma PullKeepsLow(h: nat, h': nat, b: nat, n: nat)
    requires n <= b && Lo(h', b) == h
    ensures Lo(h', n) == Lo(h, n)
  {
    LoLo(h', n, b);
  }

  lemma NothingDecided(r: Reader, lens: seq<bitlen>)
    requires r.Valid() && r.next == |r.input| && LookUp(lens, r.Rest()) == More
    ensures Undecided(lens, r.hold, r.bits)
  {
    hide LookUp, BitsOf, Pow2;
    assert r.input[r.next..] == [];
    assert r.Rest() == BitsOf(r.hold, r.bits);
  }

  // One code word: its entry, with its bits dropped, or a wait for more input.
  method NextEntry(r: Reader, table: seq<Entry>, root: nat, kind: CodeType, ghost lens: seq<bitlen>)
    returns (ok: bool, here: Entry, ghost e: Entry)
    requires r.Valid() && Ready(table, root, kind, lens) && kind != CODES && Undecided(lens, r.hold, r.bits)
    modifies r`next, r`hold, r`bits
    ensures r.Valid() && old(r.next) <= r.next
    ensures if ok then r.bits < 8 else Undecided(lens, r.hold, r.bits)
    ensures ok ==> here.op == e.op && here.val == e.val && Answers(kind, lens, LookUp(lens, old(r.Rest())), e)
    ensures ok ==> e.bits <= |old(r.Rest())| && r.Rest() == old(r.Rest())[e.bits..]
    ensures !ok ==> r.next == |r.input| && r.Rest() == old(r.Rest()) && LookUp(lens, r.Rest()) == More
  {
    hide Ready, Finds, Answers, LookUp, Tight, Usable, EntryTells, Lo, Hi, Pow2, RestOf;
    ghost var rest := r.Rest();
    ReadyUsable(table, root, kind, lens);
    UndecidedTight(lens, r.hold, r.bits);
    ok, here, e := RootEntry(r, table, root, kind, lens);
    if !ok {
      NothingDecided(r, lens);
      return;
    }
    e := RootTells(table, root, kind, lens, r.hold);
    if here.op < 16 && (kind == DISTS || here.op != 0) {
      var last := here;
      ok, here := SubEntry(r, table, root, kind, lens, last);
      if !ok {
        NothingDecided(r, lens);
        return;
      }
      e := here.(bits := root + here.bits);
      EnoughBits(kind, lens, r.hold, r.bits, r.input[r.next..], e);
      TightTakes(kind, lens, r.hold, r.bits, r.input[r.next..], e);
      r.DropBits(last.bits);
      r.DropBits(here.bits);
      assert rest[root..][here.bits..] == rest[root + here.bits..];
    } else {
      EnoughBits(kind, lens, r.hold, r.bits, r.input[r.next..], e);
      TightTakes(kind, lens, r.hold, r.bits, r.input[r.next..], e);
      r.DropBits(here.bits);
    }
  }
}
