// The braided CRC (deps/zlib/crc32.c:639-1015): five registers run over interleaved words and
// are put together in the last block, with the same result as one register run over the bytes.

module CrcBraids {
  import opened CrcField
  import opened CrcProduct
  import opened CrcTables
  import opened Crc32
  import opened CrcWords
  import opened Words

  // ------------------------------------------------------------ a word at a time

  lemma {:induction false} RawSum(s: seq<bv8>, n: nat)
    requires |s| == W && n <= W
    ensures Xn(Raw(ZERO, s[..n]), 8 * (W - n)) == ByteSum(Load(s), n)
  {
    hide Xn, Add, Of, Load, ByteAt;
    if n == 0 {
      XnZero(8 * W);
    } else {
      RawSum(s, n - 1);
      LoadAt(s, n - 1);
      var t := s[..n];
      assert t[..|t| - 1] == s[..n - 1];
      var r, b := Raw(ZERO, s[..n - 1]), Of(s[n - 1]);
      XnPlus(Add(r, b), 8, 8 * (W - n));
      XnAdds(r, b, 8 * (W - n) + 8);
    }
  }

  // A word is its eight bytes in order.
  lemma RawWord(c: Poly, s: seq<bv8>)
    requires |s| == W
    ensures Raw(c, s) == Add(Xn(c, 64), WordCrc(Load(s)))
    ensures Raw(c, s) == WordCrc(Xored(Wide(c), Load(s)))
  {
    hide Xn, Add, Raw, Load, WordCrc, ByteSum, Xored, Wide;
    RawFrom(c, s);
    AddSwap(Raw(ZERO, s), Xn(c, 64));
    RawSum(s, W);
    assert s[..W] == s;
    assert Xn(Raw(ZERO, s), 0) == Raw(ZERO, s) by { Starts(c, Raw(ZERO, s)); }
    WordIsBytes(Load(s));
    WordCrcOf(c, Load(s));
  }

  lemma AddSwap(a: Poly, b: Poly)
    ensures Add(a, b) == Add(b, a)
  {
    AddAssoc(a, b, a);
  }

  // ------------------------------------------------------------ braids

  const BLOCK := N * W

  // The first n registers, each moved past its own word and those of the braids after it.
  function Fold(cs: seq<Poly>, n: nat): Poly
    requires n <= |cs|
  {
    if n == 0 then ZERO else Xn(Add(Fold(cs, n - 1), cs[n - 1]), 64)
  }

  function WordOf(s: seq<bv8>, j: nat): Word
    requires j < N && |s| == BLOCK
  {
    Load(s[j * W..(j + 1) * W])
  }

  lemma RawNext(s: seq<bv8>, j: nat)
    requires j < N && |s| == BLOCK
    ensures Raw(ZERO, s[..(j + 1) * W]) == Add(Xn(Raw(ZERO, s[..j * W]), 64), WordCrc(WordOf(s, j)))
  {
    hide Xn, Add, Raw, Load, WordCrc;
    var t := s[j * W..(j + 1) * W];
    assert s[..(j + 1) * W] == s[..j * W] + t;
    RawAppends(ZERO, s[..j * W], t);
    RawWord(Raw(ZERO, s[..j * W]), t);
  }

  // Register j after a block but the last: its word, moved past the other four of the next.
  predicate Moved(cs: seq<Poly>, s: seq<bv8>, cs': seq<Poly>)
    requires |cs| == N == |cs'| && |s| == BLOCK
  {
    forall j :: 0 <= j < N ==> cs'[j] == Xn(WordCrc(Xored(Wide(cs[j]), WordOf(s, j))), 256)
  }

  lemma {:induction false} FoldMoves(cs: seq<Poly>, s: seq<bv8>, cs': seq<Poly>, n: nat)
    requires |cs| == N == |cs'| && |s| == BLOCK && n <= N
    requires Moved(cs, s, cs')
    ensures Fold(cs', n) == Xn(Add(Fold(cs, n), Raw(ZERO, s[..n * W])), 320)
  {
    hide Xn, Add, WordOf, WordCrc, Xored, Wide;
    if n == 0 {
      AddZero(ZERO);
      XnZero(320);
    } else {
      hide Raw;
      var j := n - 1;
      FoldMoves(cs, s, cs', j);
      var f, r, c, w := Fold(cs, j), Raw(ZERO, s[..j * W]), cs[j], WordCrc(WordOf(s, j));
      WordCrcOf(c, WordOf(s, j));
      RawNext(s, j);
      MoveStep(f, r, c, w);
    }
  }

  lemma MoveStep(f: Poly, r: Poly, c: Poly, w: Poly)
    ensures Xn(Add(Xn(Add(f, r), 320), Xn(Add(Xn(c, 64), w), 256)), 64)
         == Xn(Add(Xn(Add(f, c), 64), Add(Xn(r, 64), w)), 320)
  {
    hide Xn, Add;
    MoveOut(Add(f, r), Add(Xn(c, 64), w));
    MoveIn(f, r, c, w);
  }

  lemma MoveOut(a: Poly, u: Poly)
    ensures Xn(Add(Xn(a, 320), Xn(u, 256)), 64) == Xn(Add(Xn(a, 64), u), 320)
  {
    hide Xn, Add;
    XnPlus(a, 64, 256);
    XnAdds(Xn(a, 64), u, 256);
    XnPlus(Add(Xn(a, 64), u), 256, 64);
  }

  lemma MoveIn(f: Poly, r: Poly, c: Poly, w: Poly)
    ensures Add(Xn(Add(f, r), 64), Add(Xn(c, 64), w)) == Add(Xn(Add(f, c), 64), Add(Xn(r, 64), w))
  {
    hide Xn, Add;
    XnAdds(f, r, 64);
    XnAdds(f, c, 64);
    Regroup(Xn(f, 64), Xn(r, 64), Xn(c, 64), w);
  }

  lemma {:induction false} FoldFirst(cs: seq<Poly>, n: nat)
    requires 0 < n <= |cs| && forall j :: 0 < j < n ==> cs[j] == ZERO
    ensures Fold(cs, n) == Xn(cs[0], 64 * n)
  {
    hide Xn, Add;
    if n == 1 {
      AddZero(cs[0]);
    } else {
      FoldFirst(cs, n - 1);
      AddZero(Fold(cs, n - 1));
      XnPlus(cs[0], 64 * (n - 1), 64);
    }
  }

  // The registers after the blocks in s hold what one register would, moved past a block.
  ghost predicate Holds(cs: seq<Poly>, c: Poly, s: seq<bv8>) {
    |cs| == N && Fold(cs, N) == Xn(Raw(c, s), 320)
  }

  lemma HoldsMoves(cs: seq<Poly>, c: Poly, s: seq<bv8>, b: seq<bv8>, cs': seq<Poly>)
    requires Holds(cs, c, s) && |b| == BLOCK && |cs'| == N && Moved(cs, b, cs')
    ensures Holds(cs', c, s + b)
  {
    hide Xn, Add, Raw, Moved, Fold;
    FoldMoves(cs, b, cs', N);
    assert b[..N * W] == b;
    RawAppends(c, s, b);
    RawFrom(Raw(c, s), b);
    AddSwap(Raw(ZERO, b), Xn(Raw(c, s), 320));
  }

  // One pass over the five words of a block but the last.
  method Block(t: Tables, s: seq<bv8>, cs: array<Poly>)
    requires t.Valid() && |s| == BLOCK && cs.Length == N
    requires cs != t.crc && cs != t.x2n
    modifies cs
    ensures t.Valid()
    ensures Moved(old(cs[..]), s, cs[..])
  {
    hide Xn, WordCrc, Xored, Wide, WordOf, ByteTable, PowerTable, BraidRow;
    for j := 0 to N
      invariant t.Valid()
      invariant forall i :: 0 <= i < j ==> cs[i] == Xn(WordCrc(Xored(Wide(old(cs[..])[i]), WordOf(s, i))), 256)
      invariant forall i :: j <= i < N ==> cs[i] == old(cs[..])[i]
    {
      var word := Xored(Wide(cs[j]), WordOf(s, j));
      var c := BraidWord(t, word);
      cs[j] := c;
    }
  }

  lemma LastStep(f: Poly, r: Poly, c: Poly, s: seq<bv8>, j: nat)
    requires j < N && |s| == BLOCK && r == Raw(ZERO, s[..j * W])
    ensures WordCrc(Xored(Xored(Wide(c), WordOf(s, j)), Wide(Add(f, r))))
         == Add(Xn(Add(f, c), 64), Raw(ZERO, s[..(j + 1) * W]))
  {
    hide Xn, Add, Raw, WordOf, WordCrc, Xored, Wide;
    var w := WordOf(s, j);
    RawNext(s, j);
    XoredSwap(Xored(Wide(c), w), Wide(Add(f, r)));
    WordCrcOf(Add(f, r), Xored(Wide(c), w));
    WordCrcOf(c, w);
    XnAdds(f, r, 64);
    XnAdds(f, c, 64);
    Regroup(Xn(f, 64), Xn(r, 64), Xn(c, 64), WordCrc(w));
  }

  lemma FirstWord(c: Poly, cs: seq<Poly>, s: seq<bv8>)
    requires |s| == BLOCK && |cs| == N && cs[0] == c
    ensures WordCrc(Xored(Wide(c), WordOf(s, 0))) == Add(Fold(cs, 1), Raw(ZERO, s[..W]))
  {
    hide Xn, Add, WordOf, WordCrc, Xored, Wide;
    WordCrcOf(c, WordOf(s, 0));
    RawNext(s, 0);
    assert Raw(ZERO, s[..0]) == ZERO;
    XnZero(64);
    AddZero(WordCrc(WordOf(s, 0)));
    AddZero(c);
    assert Fold(cs, 1) == Xn(Add(Fold(cs, 0), c), 64);
  }

  // The last block: each word takes in its own register and what the words before it left.
  method LastBlock(t: Tables, s: seq<bv8>, cs: array<Poly>) returns (crc: Poly)
    requires t.Valid() && |s| == BLOCK && cs.Length == N
    ensures crc == Add(Fold(cs[..], N), Raw(ZERO, s))
  {
    hide Xn, WordCrc, Xored, Wide, WordOf, ByteTable, PowerTable, BraidRow, Add, Raw, Fold;
    crc := CrcWord(t, Xored(Wide(cs[0]), WordOf(s, 0)));
    FirstWord(cs[0], cs[..], s);
    for j := 1 to N
      invariant crc == Add(Fold(cs[..], j), Raw(ZERO, s[..j * W]))
    {
      LastStep(Fold(cs[..], j), Raw(ZERO, s[..j * W]), cs[j], s, j);
      FoldNext(cs[..], j);
      crc := CrcWord(t, Xored(Xored(Wide(cs[j]), WordOf(s, j)), Wide(crc)));
    }
    assert s[..N * W] == s;
  }

  lemma FoldNext(cs: seq<Poly>, j: nat)
    requires j < |cs|
    ensures Fold(cs, j + 1) == Xn(Add(Fold(cs, j), cs[j]), 64)
  {}

  lemma LastHolds(cs: seq<Poly>, c: Poly, s: seq<bv8>, b: seq<bv8>)
    requires Holds(cs, c, s) && |b| == BLOCK
    ensures Add(Fold(cs, N), Raw(ZERO, b)) == Raw(c, s + b)
  {
    hide Xn, Add, Raw, Fold;
    RawAppends(c, s, b);
    RawFrom(Raw(c, s), b);
    AddSwap(Raw(ZERO, b), Xn(Raw(c, s), 320));
  }

  lemma StartHolds(cs: seq<Poly>, c: Poly)
    requires |cs| == N && cs[0] == c && forall j :: 0 < j < N ==> cs[j] == ZERO
    ensures Holds(cs, c, [])
  {
    hide Xn, Add;
    FoldFirst(cs, N);
  }

  method Braided(t: Tables, c: Poly, s: seq<bv8>, blocks: nat) returns (crc: Poly)
    requires t.Valid() && blocks > 0 && |s| == blocks * BLOCK
    ensures crc == Raw(c, s)
  {
    hide Xn, Raw, Holds, Moved, Tables.Valid;
    var cs := new Poly[N](_ => ZERO);
    cs[0] := c;
    StartHolds(cs[..], c);
    var p := 0;
    var blks := blocks - 1;
    while blks != 0
      invariant p + (blks + 1) * BLOCK == |s|
      invariant t.Valid()
      invariant Holds(cs[..], c, s[..p])
    {
      var b := s[p..p + BLOCK];
      ghost var was := cs[..];
      Block(t, b, cs);
      HoldsMoves(was, c, s[..p], b, cs[..]);
      assert s[..p] + b == s[..p + BLOCK];
      p := p + BLOCK;
      blks := blks - 1;
    }
    crc := LastBlock(t, s[p..], cs);
    LastHolds(cs[..], c, s[..p], s[p..]);
    assert s[..p] + s[p..] == s;
  }

  // ------------------------------------------------------------ crc32_z

  // The bytes of a call, at an address; or none at all.
  datatype Buffer = Null | Bytes(s: seq<bv8>, address: nat)

  lemma RawOneMore(c: Poly, s: seq<bv8>, p: nat)
    requires p < |s|
    ensures Raw(c, s[..p + 1]) == Step(Raw(c, s[..p]), s[p])
  {
    hide Step;
    assert s[..p + 1][..p] == s[..p];
  }

  method Crc32Z(t: Tables, crc: Poly, buf: Buffer) returns (r: Poly)
    requires t.Valid()
    ensures buf.Null? ==> r == ZERO
    ensures buf.Bytes? ==> r == Crc(crc, buf.s)
  {
    hide Xn, Raw, Step, Add, Tables.Valid;
    if buf.Null? { return ZERO; }
    var s, len, p := buf.s, |buf.s|, 0;
    var c := Add(crc, ONES);
    ghost var c0 := c;
    RawNone(c0, s);
    if len >= N * W + W - 1 {
      c, p := Align(t, c, s, buf.address);
      len := len - p;
      var blks := len / BLOCK;
      var q := p + blks * BLOCK;
      len := len - blks * BLOCK;
      RawAppends(c0, s[..p], s[p..q]);
      assert s[..p] + s[p..q] == s[..q];
      c := Braided(t, c, s[p..q], blks);
      p := q;
    }
    c := Bytewise(t, c0, c, s, p);
    assert s[..|s|] == s;
    r := Add(c, ONES);
  }

  lemma RawNone(c: Poly, s: seq<bv8>)
    ensures Raw(c, s[..0]) == c
  {}

  // Bytes up to the first word boundary.
  method Align(t: Tables, c: Poly, s: seq<bv8>, address: nat) returns (r: Poly, p: nat)
    requires t.Valid()
    ensures p <= |s| && p < W
    ensures r == Raw(c, s[..p])
    ensures p == |s| || (address + p) % W == 0
  {
    hide Xn, Raw, Step, Tables.Valid;
    r, p := c, 0;
    RawNone(c, s);
    while p < |s| && (address + p) % W != 0
      invariant p <= |s| && p <= (W - address % W) % W
      invariant r == Raw(c, s[..p])
    {
      RawOneMore(c, s, p);
      r := ByteStep(t, r, s[p]);
      p := p + 1;
    }
  }

  // The bytes from p on, eight at a time and then one by one.
  method Bytewise(t: Tables, ghost c0: Poly, c: Poly, s: seq<bv8>, from: nat) returns (r: Poly)
    requires t.Valid() && from <= |s| && c == Raw(c0, s[..from])
    ensures r == Raw(c0, s[..|s|])
  {
    hide Xn, Raw, Step, Tables.Valid;
    r := c;
    var p, len := from, |s| - from;
    while len >= 8
      invariant p + len == |s| && len >= 0
      invariant r == Raw(c0, s[..p])
    {
      len := len - 8;
      for i := 0 to 8
        invariant p + 8 - i + len == |s|
        invariant r == Raw(c0, s[..p])
      {
        RawOneMore(c0, s, p);
        r := ByteStep(t, r, s[p]);
        p := p + 1;
      }
    }
    while len != 0
      invariant p + len == |s| && len >= 0
      invariant r == Raw(c0, s[..p])
    {
      len := len - 1;
      RawOneMore(c0, s, p);
      r := ByteStep(t, r, s[p]);
      p := p + 1;
    }
  }
}
