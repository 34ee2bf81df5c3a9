// Words of eight bytes, least significant first.

module Words {

  const BYTES := 8

  datatype Word = Word(w: bv64)

  function Xored(a: Word, b: Word): Word { Word(a.w ^ b.w) }

  // a & 0xff and a >> 8.
  function FirstByte(a: Word): bv8 { (a.w & 0xff) as bv8 }

  function Shifted(a: Word): Word { Word(a.w >> 8) }

  // a >> (k << 3).
  function Later(a: Word, k: nat): Word {
    if k == 0 then a else Shifted(Later(a, k - 1))
  }

  function ByteAt(a: Word, k: nat): bv8 { FirstByte(Later(a, k)) }

  predicate Within(a: Word, b: Word) { a.w <= b.w }

  lemma ShiftedWithin(a: Word, b: Word)
    requires Within(a, b)
    ensures Within(Shifted(a), Shifted(b))
  {}

  lemma {:induction false} LaterWithin(a: Word, b: Word, n: nat)
    requires Within(a, b)
    ensures Within(Later(a, n), Later(b, n))
  {
    hide Within, Shifted;
    if n > 0 {
      LaterWithin(a, b, n - 1);
      ShiftedWithin(Later(a, n - 1), Later(b, n - 1));
    }
  }

  lemma LaterGone(a: Word)
    ensures Later(a, 8) == Word(0)
  {
    LaterWithin(a, Word(0xffff_ffff_ffff_ffff), 8);
    assert Later(Word(0xffff_ffff_ffff_ffff), 8) == Word(0);
  }

  lemma XoredSwap(a: Word, b: Word)
    ensures Xored(a, b) == Xored(b, a)
  {}

  // ------------------------------------------------------------ words in memory

  function Joined(a: Word, b: bv8): Word { Word((a.w << 8) | (b as bv64)) }

  // At most eight bytes, least significant first.
  function Load(s: seq<bv8>): Word {
    if s == [] then Word(0) else Joined(Load(s[1..]), s[0])
  }

  predicate Covers(m: Word, a: Word) { a.w & m.w == a.w }

  lemma JoinedCovers(m: Word, a: Word, b: bv8)
    requires Covers(m, a)
    ensures Covers(Joined(m, 0xff), Joined(a, b))
  {}

  lemma CoversTwice(m: Word, n: Word, a: Word)
    requires Covers(m, n) && Covers(n, a)
    ensures Covers(m, a)
  {}

  lemma JoinedParts(a: Word, b: bv8)
    requires Covers(Word(0xff_ffff_ffff_ffff), a)
    ensures Shifted(Joined(a, b)) == a
  {}

  lemma JoinedFirst(a: Word, b: bv8)
    ensures FirstByte(Joined(a, b)) == b
  {}

  // n bytes of ones.
  function Full(n: nat): Word {
    if n == 0 then Word(0) else Joined(Full(n - 1), 0xff)
  }

  lemma {:induction false} LoadFull(s: seq<bv8>)
    ensures Covers(Full(|s|), Load(s))
  {
    if s != [] {
      hide Covers, Joined;
      LoadFull(s[1..]);
      JoinedCovers(Full(|s| - 1), Load(s[1..]), s[0]);
    }
  }

  lemma FullSeven(n: nat)
    requires n <= 7
    ensures Covers(Word(0xff_ffff_ffff_ffff), Full(n))
  {
    if n == 7 {
      assert Full(7) == Word(0xff_ffff_ffff_ffff);
    } else if n == 6 {
      assert Full(6) == Word(0xffff_ffff_ffff);
    } else if n == 5 {
      assert Full(5) == Word(0xff_ffff_ffff);
    } else if n == 4 {
      assert Full(4) == Word(0xffff_ffff);
    } else if n == 3 {
      assert Full(3) == Word(0xff_ffff);
    } else if n == 2 {
      assert Full(2) == Word(0xffff);
    } else if n == 1 {
      assert Full(1) == Word(0xff);
    } else {
      assert Full(0) == Word(0);
    }
  }

  lemma LoadShifted(s: seq<bv8>)
    requires 0 < |s| <= BYTES
    ensures Shifted(Load(s)) == Load(s[1..])
    ensures FirstByte(Load(s)) == s[0]
  {
    hide Covers, Joined, Full, Shifted, FirstByte;
    LoadFull(s[1..]);
    FullSeven(|s| - 1);
    CoversTwice(Word(0xff_ffff_ffff_ffff), Full(|s| - 1), Load(s[1..]));
    JoinedParts(Load(s[1..]), s[0]);
    JoinedFirst(Load(s[1..]), s[0]);
  }

  lemma {:induction false} LoadLater(s: seq<bv8>, k: nat)
    requires k <= |s| <= BYTES
    ensures Later(Load(s), k) == Load(s[k..])
  {
    hide Load, Shifted;
    if k == 0 {
      assert s[0..] == s;
    } else {
      LoadLater(s, k - 1);
      LoadShifted(s[k - 1..]);
      assert s[k - 1..][1..] == s[k..];
    }
  }

  lemma LoadAt(s: seq<bv8>, k: nat)
    requires k < |s| <= BYTES
    ensures ByteAt(Load(s), k) == s[k]
  {
    hide Load, Shifted, FirstByte, Later;
    LoadLater(s, k);
    LoadShifted(s[k..]);
  }
}
