// The tables that map match lengths and distances to their codes (section 3.2.5 of
// RFC 1951), as the loops of tr_static_init fill them (deps/zlib/trees.c:294-347).

module CodeTables {
  import opened Powers
  import opened TableLayout

  const LENGTH_CODES := 29
  const D_CODES := 30

  const EXTRA_LBITS: seq<nat> := [0, 0, 0, 0, 0, 0, 0, 0, 1, 1, 1, 1, 2, 2, 2, 2, 3, 3, 3, 3, 4, 4, 4, 4, 5, 5, 5, 5, 0]
  const EXTRA_DBITS: seq<nat> := [0, 0, 0, 0, 1, 1, 2, 2, 3, 3, 4, 4, 5, 5, 6, 6, 7, 7, 8, 8, 9, 9, 10, 10, 11, 11, 12, 12, 13, 13]

  // Number of lengths or distances a code stands for, and the first of them on the
  // decoder's side; the encoder counts lengths from 3 and distances from 1.
  function LSpan(c: nat): nat { if c < LENGTH_CODES then Pow2(EXTRA_LBITS[c]) else 1 }
  function DSpan(c: nat): nat { if c < D_CODES then Pow2(EXTRA_DBITS[c]) else 1 }
  function LFirst(c: nat): nat { if c < LENGTH_CODES then LBASE[c] else 259 }
  function DFirst(c: nat): nat { if c < D_CODES then DBASE[c] else 32769 }

  predicate InLengthCode(c: nat, lc: nat) {
    c < 28 && LFirst(c) <= lc + 3 < LFirst(c) + LSpan(c)
  }

  predicate InDistCode(c: nat, d: nat) {
    c < D_CODES && DFirst(c) <= d + 1 < DFirst(c) + DSpan(c)
  }

  // ------------------------------------------------------------ encoder and decoder agree

  lemma SamePowers()
    ensures Pow2(0) == 1 && Pow2(1) == 2 && Pow2(2) == 4 && Pow2(3) == 8 && Pow2(4) == 16
    ensures Pow2(5) == 32 && Pow2(6) == 64 && Pow2(7) == 128 && Pow2(8) == 256 && Pow2(9) == 512
    ensures Pow2(10) == 1024 && Pow2(11) == 2048 && Pow2(12) == 4096 && Pow2(13) == 8192
  {}

  lemma LengthExtras(c: nat)
    requires c < LENGTH_CODES
    ensures LEXT[c] == 16 + EXTRA_LBITS[c] && EXTRA_LBITS[c] <= 5
  {}

  lemma DistExtras(c: nat)
    requires c < D_CODES
    ensures DEXT[c] == 16 + EXTRA_DBITS[c] && EXTRA_DBITS[c] <= 13
  {}

  lemma ShortSpans(c: nat)
    requires c < 16
    ensures LBASE[c] + Pow2(EXTRA_LBITS[c]) == LBASE[c + 1]
  {
    SamePowers();
    if c < 8 {
      assert EXTRA_LBITS[c] == 0;
    } else if c < 12 {
      assert EXTRA_LBITS[c] == 1;
    } else {
      assert EXTRA_LBITS[c] == 2;
    }
  }

  lemma LongSpans(c: nat)
    requires 16 <= c < 28
    ensures LBASE[c] + Pow2(EXTRA_LBITS[c]) == if c < 27 then LBASE[c + 1] else 259
  {
    SamePowers();
    if c < 20 {
      assert EXTRA_LBITS[c] == 3;
    } else if c < 24 {
      assert EXTRA_LBITS[c] == 4;
    } else {
      assert EXTRA_LBITS[c] == 5;
    }
  }

  // Each length code starts where the one before it ends; the last but one would end
  // one past the longest match.
  lemma LengthSpans(c: nat)
    requires c < 28
    ensures LFirst(c) + LSpan(c) == if c < 27 then LFirst(c + 1) else 259
  {
    hide Pow2;
    if c < 16 { ShortSpans(c); } else { LongSpans(c); }
  }

  lemma DistSpans(c: nat)
    requires c < D_CODES
    ensures DFirst(c) + DSpan(c) == DFirst(c + 1)
  {
    SamePowers();
    if c < 4 {
      assert EXTRA_DBITS[c] == 0 && DBASE[c + 1] - DBASE[c] == 1;
    } else if c < 10 {
      DistSpansNear(c);
    } else if c < 20 {
      DistSpansMiddle(c);
    } else {
      DistSpansFar(c);
    }
  }

  lemma DistSpansNear(c: nat)
    requires 4 <= c < 10
    ensures DBASE[c] + Pow2(EXTRA_DBITS[c]) == DBASE[c + 1]
  {
    SamePowers();
    if c < 6 { assert EXTRA_DBITS[c] == 1; } else if c < 8 { assert EXTRA_DBITS[c] == 2; } else { assert EXTRA_DBITS[c] == 3; }
  }

  lemma DistSpansMiddle(c: nat)
    requires 10 <= c < 20
    ensures DBASE[c] + Pow2(EXTRA_DBITS[c]) == DBASE[c + 1]
  {
    SamePowers();
    if c < 12 { assert EXTRA_DBITS[c] == 4; } else if c < 14 { assert EXTRA_DBITS[c] == 5; }
    else if c < 16 { assert EXTRA_DBITS[c] == 6; } else if c < 18 { assert EXTRA_DBITS[c] == 7; }
    else { assert EXTRA_DBITS[c] == 8; }
  }

  lemma DistSpansFar(c: nat)
    requires 20 <= c < D_CODES
    ensures DBASE[c] + Pow2(EXTRA_DBITS[c]) == DFirst(c + 1)
  {
    SamePowers();
    if c < 22 { assert EXTRA_DBITS[c] == 9; } else if c < 24 { assert EXTRA_DBITS[c] == 10; }
    else if c < 26 { assert EXTRA_DBITS[c] == 11; } else if c < 28 { assert EXTRA_DBITS[c] == 12; }
    else { assert EXTRA_DBITS[c] == 13; }
  }

  // Far distance codes come in whole blocks of 128.
  lemma FarSpan(c: nat)
    requires 16 <= c < D_CODES
    ensures EXTRA_DBITS[c] >= 7 && DSpan(c) == 128 * Pow2(EXTRA_DBITS[c] - 7)
  {
    Pow2Split(7, EXTRA_DBITS[c]);
    SamePowers();
  }

  lemma {:induction false} SpansGrow(c: nat, c2: nat)
    requires c <= c2 <= D_CODES
    ensures DFirst(c) <= DFirst(c2)
    decreases c2
  {
    if c < c2 {
      SpansGrow(c, c2 - 1);
      DistSpans(c2 - 1);
    }
  }

  lemma {:induction false} LSpansGrow(c: nat, c2: nat)
    requires c <= c2 <= 27
    ensures LFirst(c) <= LFirst(c2)
    decreases c2
  {
    if c < c2 {
      LSpansGrow(c, c2 - 1);
      LengthSpans(c2 - 1);
    }
  }

  // ------------------------------------------------------------ the tables

  datatype Tables = Tables(lengthCode: seq<nat>, baseLength: seq<nat>, distCode: seq<nat>, baseDist: seq<nat>)

  // d_code: distances below 256 by value, the others by their top bits.
  function DCode(distCode: seq<nat>, d: nat): nat
    requires |distCode| == 512 && d < 32768
  {
    if d < 256 then distCode[d] else distCode[256 + d / 128]
  }

  ghost predicate LengthsReady(lengthCode: seq<nat>, baseLength: seq<nat>) {
    && |lengthCode| == 256 && |baseLength| == LENGTH_CODES
    && (forall lc :: 0 <= lc < 255 ==> InLengthCode(lengthCode[lc], lc))
    && (forall c :: 0 <= c < 28 ==> baseLength[c] + 3 == LFirst(c))
    && lengthCode[255] == 28 && baseLength[28] == 0
  }

  ghost predicate DistsReady(distCode: seq<nat>, baseDist: seq<nat>) {
    && |distCode| == 512 && |baseDist| == D_CODES
    && (forall d: nat {:trigger DCode(distCode, d)} :: d < 32768 ==> InDistCode(DCode(distCode, d), d))
    && (forall c :: 0 <= c < D_CODES ==> baseDist[c] + 1 == DFirst(c))
  }

  ghost predicate Ready(t: Tables) {
    LengthsReady(t.lengthCode, t.baseLength) && DistsReady(t.distCode, t.baseDist)
  }

  method TrStaticInit() returns (t: Tables)
    ensures Ready(t)
  {
    var lengthCode, baseLength := InitLengths();
    var distCode, baseDist := InitDists();
    t := Tables(lengthCode[..], baseLength[..], distCode[..], baseDist[..]);
  }

  // The inner loop of all three fills: n slots from `at` on get the code.
  method FillRun(table: array<nat>, at: nat, n: nat, code: nat) returns (end: nat)
    requires at + n <= table.Length
    modifies table
    ensures end == at + n
    ensures forall i :: 0 <= i < table.Length ==> table[i] == if at <= i < end then code else old(table[i])
  {
    end := at;
    var k := 0;
    while k < n
      invariant 0 <= k <= n && end == at + k
      invariant forall i :: 0 <= i < table.Length ==> table[i] == if at <= i < end then code else old(table[i])
    {
      table[end] := code;
      end := end + 1;
      k := k + 1;
    }
  }

  // Where the run of length code c ends.
  lemma LengthRun(c: nat, length: nat)
    requires c < 28 && length + 3 == LFirst(c)
    ensures length + Pow2(EXTRA_LBITS[c]) + 3 == (if c + 1 < 28 then LFirst(c + 1) else 259)
    ensures length + Pow2(EXTRA_LBITS[c]) <= 256
    ensures forall lc: nat :: length <= lc < length + Pow2(EXTRA_LBITS[c]) ==> InLengthCode(c, lc)
  {
    LengthSpans(c);
    if c < 27 { LSpansGrow(c + 1, 27); }
  }

  lemma FirstLength()
    ensures LFirst(0) == 3
  {}

  method InitLengths() returns (lengthCode: array<nat>, baseLength: array<nat>)
    ensures LengthsReady(lengthCode[..], baseLength[..])
  {
    hide InLengthCode, LFirst, Pow2;
    lengthCode := new nat[256];
    baseLength := new nat[LENGTH_CODES](_ => 0);
    var length, code := 0, 0;
    FirstLength();
    while code < LENGTH_CODES - 1
      invariant 0 <= code <= 28
      invariant length + 3 == if code < 28 then LFirst(code) else 259
      invariant baseLength[28] == 0
      invariant forall c :: 0 <= c < code ==> baseLength[c] + 3 == LFirst(c)
      invariant 0 <= length <= 256
      invariant forall lc :: 0 <= lc < length ==> InLengthCode(lengthCode[lc], lc)
    {
      baseLength[code] := length;
      LengthRun(code, length);
      length := FillRun(lengthCode, length, Pow2(EXTRA_LBITS[code]), code);
      code := code + 1;
    }
    lengthCode[length - 1] := code;
  }

  method InitDists() returns (distCode: array<nat>, baseDist: array<nat>)
    ensures DistsReady(distCode[..], baseDist[..])
  {
    distCode := new nat[512];
    baseDist := new nat[D_CODES];
    var dist := NearDists(distCode, baseDist);
    dist := dist / 128;   // from now on, all distances are divided by 128
    FarDists(distCode, baseDist, dist);
    forall d: nat | d < 32768 ensures InDistCode(DCode(distCode[..], d), d) {
      if d >= 256 {
        assert FarEntry(distCode[256 + d / 128], d / 128);
        FarRange(distCode[256 + d / 128], d);
      }
    }
  }

  lemma NearSpan(c: nat)
    requires c < 16
    ensures DFirst(c) + Pow2(EXTRA_DBITS[c]) == DFirst(c + 1) <= 257
  {
    DistSpans(c);
    SpansGrow(c + 1, 16);
  }

  method NearDists(distCode: array<nat>, baseDist: array<nat>) returns (dist: nat)
    requires distCode.Length == 512 && baseDist.Length == D_CODES && distCode != baseDist
    modifies distCode, baseDist
    ensures dist == 256
    ensures forall c :: 0 <= c < 16 ==> baseDist[c] + 1 == DFirst(c)
    ensures forall d :: 0 <= d < 256 ==> InDistCode(distCode[d], d)
  {
    hide Pow2;
    dist := 0;
    var code := 0;
    while code < 16
      invariant 0 <= code <= 16
      invariant dist + 1 == DFirst(code)
      invariant forall c :: 0 <= c < code ==> baseDist[c] + 1 == DFirst(c)
      invariant 0 <= dist <= 256
      invariant forall d :: 0 <= d < dist ==> InDistCode(distCode[d], d)
    {
      baseDist[code] := dist;
      NearSpan(code);
      dist := FillRun(distCode, dist, Pow2(EXTRA_DBITS[code]), code);
      code := code + 1;
    }
  }

  // The code entered for the block of 128 distances number k.
  predicate FarEntry(c: nat, k: nat) {
    16 <= c < D_CODES && DFirst(c) <= 128 * k + 1 < DFirst(c) + DSpan(c)
  }

  lemma FarRange(c: nat, d: nat)
    requires d < 32768 && FarEntry(c, d / 128)
    ensures InDistCode(c, d)
  {
    FarSpan(c);
    FarAligned(c);
  }

  lemma {:induction false} FarAligned(c: nat)
    requires 16 <= c <= D_CODES
    ensures (DFirst(c) - 1) % 128 == 0
    decreases c
  {
    if c > 16 {
      FarAligned(c - 1);
      FarSpan(c - 1);
      DistSpans(c - 1);
    }
  }

  method FarDists(distCode: array<nat>, baseDist: array<nat>, start: nat)
    requires distCode.Length == 512 && baseDist.Length == D_CODES && distCode != baseDist
    requires start == 2 && forall c :: 0 <= c < 16 ==> baseDist[c] + 1 == DFirst(c)
    modifies distCode, baseDist
    ensures forall c :: 0 <= c < D_CODES ==> baseDist[c] + 1 == DFirst(c)
    ensures distCode[..256] == old(distCode[..256])
    ensures forall i :: 258 <= i < 512 ==> FarEntry(distCode[i], i - 256)
  {
    var dist, code := start, 16;
    while code < D_CODES
      invariant 16 <= code <= D_CODES
      invariant 128 * dist + 1 == DFirst(code)
      invariant forall c :: 0 <= c < code ==> baseDist[c] + 1 == DFirst(c)
      invariant distCode[..256] == old(distCode[..256])
      invariant 2 <= dist <= 256
      invariant forall i :: 258 <= i < 256 + dist ==> FarEntry(distCode[i], i - 256)
    {
      baseDist[code] := dist * 128;
      DistSpans(code);
      FarSpan(code);
      SpansGrow(code + 1, D_CODES);
      var end := FillRun(distCode, 256 + dist, Pow2(EXTRA_DBITS[code] - 7), code);
      dist := end - 256;
      code := code + 1;
    }
  }
}
