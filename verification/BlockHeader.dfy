// States TYPEDO, TABLE, LENLENS and CODELENS of inflate() (deps/zlib/inflate.c:827-1022):
// reading the description of a dynamic block's codes, and building the tables. The states can stop
// for input anywhere and be entered again; together they run one machine on bits.

module BlockHeader {
  import opened Powers
  import opened Bits
  import opened Canonical
  import opened TableLayout
  import opened TableSpace
  import opened InflateTable
  import opened TableBound
  import opened BlockDecoding
  import opened BitReader
  import EntryLookup
  import opened LengthRuns
  import opened CodeLengths

  // ------------------------------------------------------------ the machine

  // OTHER: a stored or static block, whose reading is not part of this machine. CODED: the codes of a
  // dynamic block are known.
  datatype HMode = TYPEDO | TABLE | LENLENS | CODELENS | CODED | OTHER | WRONG

  // sent: the lengths of the code length code, as they came. lens: the lengths read with it.
  datatype HConf = HConf(mode: HMode, last: bool, nlen: nat, ndist: nat, ncode: nat, sent: seq<bitlen>, lens: seq<bitlen>,
                         rest: seq<bool>)

  const ORDER: seq<nat> := [16, 17, 18, 0, 8, 7, 9, 6, 10, 5, 11, 4, 12, 3, 13, 2, 14, 1, 15]

  // The code length code: the lengths that came, each in its place, and zeros.
  function InPlace(sent: seq<bitlen>): (cl: seq<bitlen>)
    ensures |cl| == 19
  {
    if sent == [] || |sent| > 19 then seq(19, _ => 0)
    else InPlace(sent[..|sent| - 1])[ORDER[|sent| - 1] := sent[|sent| - 1]]
  }

  // What inflate checks of the lengths once they are there.
  ghost predicate GoodCodes(lens: seq<bitlen>, nlen: nat) {
    256 < nlen <= |lens| && lens[256] != 0 && Acceptable(LENS, lens[..nlen]) && Acceptable(DISTS, lens[nlen..])
  }

  ghost function HStep(c: HConf): Option<HConf> {
    match c.mode
    case TYPEDO =>
      if |c.rest| < 3 then None
      else
        var t := Val(c.rest[1..3]);
        Some(c.(mode := if t == 2 then TABLE else if t == 3 then WRONG else OTHER, last := c.rest[0], rest := c.rest[3..]))
    case TABLE =>
      if |c.rest| < 14 then None
      else
        var n, d, k := Val(c.rest[..5]) + 257, Val(c.rest[5..10]) + 1, Val(c.rest[10..14]) + 4;
        Some(c.(mode := if n > 286 || d > 30 then WRONG else LENLENS, nlen := n, ndist := d, ncode := k, sent := [], lens := [],
                rest := c.rest[14..]))
    case LENLENS =>
      if |c.sent| >= c.ncode then
        Some(c.(mode := if Acceptable(CODES, InPlace(c.sent)) then CODELENS else WRONG, lens := []))
      else if |c.rest| < 3 then None
      else
        ThreeBits(c.rest);
        Some(c.(sent := c.sent + [Val(c.rest[..3])], rest := c.rest[3..]))
    case CODELENS =>
      if |c.lens| >= c.nlen + c.ndist then
        Some(c.(mode := if GoodCodes(c.lens, c.nlen) then CODED else WRONG))
      else
        (match LenStep(InPlace(c.sent), c.nlen + c.ndist, LenConf(false, c.lens, c.rest))
         case None => None
         case Some(d) => Some(c.(mode := if d.bad then WRONG else CODELENS, lens := d.lens, rest := d.rest)))
    case CODED => None
    case OTHER => None
    case WRONG => None
  }

  lemma ThreeBits(bs: seq<bool>)
    requires 3 <= |bs|
    ensures Val(bs[..3]) < 8
  {
    assert Pow2(3) == 8;
  }

  lemma FieldsBelow(bs: seq<bool>)
    requires 14 <= |bs|
    ensures Val(bs[..5]) < 32 && Val(bs[5..10]) < 32 && Val(bs[10..14]) < 16
  {
    assert Pow2(5) == 32 && Pow2(4) == 16;
  }

  ghost function HSteps(c: HConf, n: nat): Option<HConf>
    decreases n
  {
    if n == 0 then Some(c) else match HStep(c) case None => None case Some(d) => HSteps(d, n - 1)
  }

  ghost predicate HRuns(c: HConf, d: HConf) {
    exists n: nat :: HSteps(c, n) == Some(d)
  }

  lemma HRunsZero(c: HConf)
    ensures HRuns(c, c)
  {
    assert HSteps(c, 0) == Some(c);
  }

  lemma HRunsStep(c: HConf)
    requires HStep(c).Some?
    ensures HRuns(c, HStep(c).value)
  {
    hide HStep;
    assert HSteps(HStep(c).value, 0) == Some(HStep(c).value);
    assert HSteps(c, 1) == Some(HStep(c).value);
  }

  lemma {:induction false} HStepsAdd(c: HConf, m: nat, n: nat)
    requires HSteps(c, m).Some?
    ensures HSteps(c, m + n) == HSteps(HSteps(c, m).value, n)
    decreases m
  {
    hide HStep;
    if m > 0 {
        HStepsAdd(HStep(c).value, m - 1, n);
    }
  }

  lemma HRunsTrans(c: HConf, d: HConf, e: HConf)
    requires HRuns(c, d) && HRuns(d, e)
    ensures HRuns(c, e)
  {
    hide HSteps;
    var m: nat :| HSteps(c, m) == Some(d);
    var n: nat :| HSteps(d, n) == Some(e);
    HStepsAdd(c, m, n);
  }

  // A run of the reading machine for lengths is one of this machine.
  lemma {:induction false} LensRun(c: HConf, l: LenConf, n: nat)
    requires c.mode == CODELENS
    requires LenSteps(InPlace(c.sent), c.nlen + c.ndist, LenConf(false, c.lens, c.rest), n) == Some(l)
    ensures HRuns(c, c.(mode := if l.bad then WRONG else CODELENS, lens := l.lens, rest := l.rest))
    decreases n
  {
    hide LenStep, HRuns;
    var end := c.(mode := if l.bad then WRONG else CODELENS, lens := l.lens, rest := l.rest);
    if n == 0 {
      HRunsZero(c);
    } else {
      var total, a := c.nlen + c.ndist, LenConf(false, c.lens, c.rest);
      var m := LenStep(InPlace(c.sent), total, a).value;
      NotDone(InPlace(c.sent), total, a);
      HRunsStep(c);
        var d := c.(mode := if m.bad then WRONG else CODELENS, lens := m.lens, rest := m.rest);
      assert HStep(c) == Some(d);
      if m.bad {
        BadStops(InPlace(c.sent), total, m, n - 1);
      } else {
        assert LenConf(false, d.lens, d.rest) == m;
        LensRun(d, l, n - 1);
        HRunsTrans(c, d, end);
      }
    }
  }

  lemma NotDone(clens: seq<bitlen>, total: nat, c: LenConf)
    requires LenStep(clens, total, c).Some?
    ensures |c.lens| < total && !c.bad
  {}

  lemma BadStops(clens: seq<bitlen>, total: nat, c: LenConf, n: nat)
    requires c.bad && LenSteps(clens, total, c, n).Some?
    ensures LenSteps(clens, total, c, n) == Some(c)
  {}

  // ------------------------------------------------------------ the states

  // The step of each state, when its bits are there.
  lemma TypeStep(c: HConf)
    requires c.mode == TYPEDO
    ensures |c.rest| < 3 ==> HStep(c).None?
    ensures |c.rest| >= 3 ==> var t := Val(c.rest[1..3]);
      HStep(c) == Some(HConf(if t == 2 then TABLE else if t == 3 then WRONG else OTHER, c.rest[0], c.nlen, c.ndist, c.ncode, c.sent,
                             c.lens, c.rest[3..]))
  {
    hide Val;
  }

  lemma TableStep(c: HConf)
    requires c.mode == TABLE
    ensures |c.rest| < 14 ==> HStep(c).None?
    ensures |c.rest| >= 14 ==> var n, d, k := Val(c.rest[..5]) + 257, Val(c.rest[5..10]) + 1, Val(c.rest[10..14]) + 4;
      HStep(c) == Some(HConf(if n > 286 || d > 30 then WRONG else LENLENS, c.last, n, d, k, [], [], c.rest[14..]))
  {
    hide Val;
  }

  lemma LengthStep(c: HConf)
    requires c.mode == LENLENS && |c.sent| < c.ncode
    ensures |c.rest| < 3 ==> HStep(c).None?
    ensures |c.rest| >= 3 ==> Val(c.rest[..3]) < 8
    ensures |c.rest| >= 3 ==>
      HStep(c) == Some(HConf(LENLENS, c.last, c.nlen, c.ndist, c.ncode, c.sent + [Val(c.rest[..3])], c.lens, c.rest[3..]))
  {
    hide Val;
    if |c.rest| >= 3 { ThreeBits(c.rest); }
  }

  lemma CodesStep(c: HConf)
    requires c.mode == LENLENS && |c.sent| == c.ncode
    ensures HStep(c) == Some(HConf(if Acceptable(CODES, InPlace(c.sent)) then CODELENS else WRONG, c.last, c.nlen, c.ndist, c.ncode,
                                   c.sent, [], c.rest))
  {
    hide Acceptable, InPlace;
  }

  lemma TablesStep(c: HConf)
    requires c.mode == CODELENS && |c.lens| == c.nlen + c.ndist
    ensures HStep(c) == Some(HConf(if GoodCodes(c.lens, c.nlen) then CODED else WRONG, c.last, c.nlen, c.ndist, c.ncode,
                                   c.sent, c.lens, c.rest))
  {
    hide GoodCodes;
  }

  lemma FirstBit(bs: seq<bool>)
    requires 3 <= |bs|
    ensures Val(bs[..1]) == (if bs[0] then 1 else 0) && bs[1..][..2] == bs[1..3] && bs[1..][2..] == bs[3..]
  {
    assert bs[..1][1..] == [];
  }

  lemma Fields(bs: seq<bool>)
    requires 14 <= |bs|
    ensures bs[5..][..5] == bs[5..10] && bs[5..][5..] == bs[10..] && bs[10..][..4] == bs[10..14] && bs[10..][4..] == bs[14..]
  {}

  // The fields of inflate_state that the header uses.
  class Header {
    var mode: HMode
    var last: bool
    var nlen: nat
    var ndist: nat
    var ncode: nat
    var have: nat
    const lens: array<bitlen>
    const work: array<nat>
    const codes: array<Entry>
    var lenbits: nat
    var lenEnd: nat             // the tables: codes[..lenEnd], and for distances codes[lenEnd..distEnd]
    var distbits: nat
    var distEnd: nat
    ghost var sent: seq<bitlen>
    ghost var got: seq<bitlen>  // the lengths read with the code length code

    constructor ()
      ensures Valid() && mode == TYPEDO && fresh(lens) && fresh(work) && fresh(codes)
    {
      mode, last, nlen, ndist, ncode, have := TYPEDO, false, 0, 0, 0, 0;
      lens := new bitlen[320](_ => 0);
      work := new nat[288](_ => 0);
      codes := new Entry[1444](_ => Entry(0, 0, 0));
      lenbits, lenEnd, distbits, distEnd, sent, got := 0, 0, 0, 0, [], [];
    }

    ghost predicate Shape() {
      lens.Length == 320 && work.Length == 288 && codes.Length == 1444
    }

    ghost predicate Sizes()
      reads `nlen, `ndist, `ncode, `sent
    {
      257 <= nlen <= 286 && 1 <= ndist <= 30 && 4 <= ncode <= 19 && |sent| <= ncode
    }

    ghost predicate Coming()
      requires Shape()
      reads `have, `sent, lens
    {
      && have == |sent| <= 19
      && forall i | 0 <= i < have :: lens[ORDER[i]] == sent[i] <= 7
    }

    // The code length table is built, and lengths are being read with it.
    ghost predicate Reading()
      requires Shape()
      reads `have, `nlen, `ndist, `sent, `got, `lenbits, `lenEnd, lens, codes
    {
      && |sent| <= 19 && have <= nlen + ndist <= lens.Length && got == lens[..have]
      && lenEnd <= codes.Length && lenbits <= 9
      && EntryLookup.Ready(codes[..lenEnd], lenbits, CODES, InPlace(sent))
      && forall s | 0 <= s < 19 :: InPlace(sent)[s] <= lenbits
    }

    // Both tables of the block decode the codes that were read.
    ghost predicate Built()
      requires Shape()
      reads `nlen, `ndist, `got, `lenbits, `lenEnd, `distbits, `distEnd, codes
    {
      && |got| == nlen + ndist && lenEnd <= distEnd <= codes.Length
      && EntryLookup.Ready(codes[..lenEnd], lenbits, LENS, got[..nlen])
      && EntryLookup.Ready(codes[lenEnd..distEnd], distbits, DISTS, got[nlen..])
    }

    ghost predicate Valid()
      reads this, lens, codes
    {
      && Shape()
      && (mode == LENLENS ==> Sizes() && Coming())
      && (mode == CODELENS ==> Sizes() && Reading())
      && (mode == CODED ==> Sizes() && Built())
    }

    ghost function Abs(r: Reader): HConf
      requires r.Valid()
      reads `mode, `last, `nlen, `ndist, `ncode, `sent, `got, r
    {
      HConf(mode, last, nlen, ndist, ncode, sent, got, r.Rest())
    }

    method TypeState(r: Reader) returns (ok: bool)
      requires Valid() && r.Valid() && mode == TYPEDO
      modifies `mode, `last, r`next, r`hold, r`bits
      ensures Valid() && r.Valid()
      ensures ok ==> HStep(old(Abs(r))) == Some(Abs(r)) && Left() < old(Left())
      ensures !ok ==> Abs(r) == old(Abs(r)) && r.next == |r.input| && HStep(Abs(r)).None?
    {
      hide Val, RestOf, HStep, Header.Coming, Header.Reading, Header.Built;
      ghost var rest := r.Rest();
      TypeStep(Abs(r));
      ok := r.NeedBits(3);
      if !ok {
        r.AllTaken();
        return;
      }
      r.BitsInRest();
      FirstBit(rest);
      var b := r.TakeBits(1);
      var t := r.TakeBits(2);
      last := b == 1;
      mode := if t == 2 then TABLE else if t == 3 then WRONG else OTHER;
    }

    // The three sizes, when 14 bits are there.
    static method TakeSizes(r: Reader) returns (ok: bool, n: nat, d: nat, k: nat)
      requires r.Valid()
      modifies r`next, r`hold, r`bits
      ensures r.Valid()
      ensures !ok ==> r.Rest() == old(r.Rest()) && r.next == |r.input| && |r.Rest()| < 14
      ensures ok ==> 14 <= |old(r.Rest())| && r.Rest() == old(r.Rest())[14..] && 4 <= k <= 19 && 257 <= n && 1 <= d
      ensures ok ==> n == Val(old(r.Rest())[..5]) + 257 && d == Val(old(r.Rest())[5..10]) + 1 && k == Val(old(r.Rest())[10..14]) + 4
    {
      hide Val, RestOf, Pow2;
      n, d, k := 0, 0, 0;
      ghost var rest := r.Rest();
      ok := r.NeedBits(14);
      if !ok {
        r.AllTaken();
        return;
      }
      r.BitsInRest();
      Fields(rest);
      FieldsBelow(rest);
      n := r.TakeBits(5);
      d := r.TakeBits(5);
      k := r.TakeBits(4);
      n, d, k := n + 257, d + 1, k + 4;
    }

    method TableState(r: Reader) returns (ok: bool)
      requires Valid() && r.Valid() && mode == TABLE
      modifies `mode, `nlen, `ndist, `ncode, `have, `sent, `got, r`next, r`hold, r`bits
      ensures Valid() && r.Valid()
      ensures ok ==> HStep(old(Abs(r))) == Some(Abs(r)) && Left() < old(Left())
      ensures !ok ==> Abs(r) == old(Abs(r)) && r.next == |r.input| && HStep(Abs(r)).None?
    {
      hide Val, RestOf, HStep, Pow2, Header.Coming, Header.Reading, Header.Built;
      TableStep(Abs(r));
      var n, d, k;
      ok, n, d, k := TakeSizes(r);
      if !ok { return; }
      SetSizes(n, d, k);
    }

    method SetSizes(n: nat, d: nat, k: nat)
      requires Shape() && 257 <= n && 1 <= d && 4 <= k <= 19
      modifies `mode, `nlen, `ndist, `ncode, `have, `sent, `got
      ensures Valid() && nlen == n && ndist == d && ncode == k && sent == [] && got == [] && Left() < 39
      ensures mode == if n > 286 || d > 30 then WRONG else LENLENS
    {
      nlen, ndist, ncode := n, d, k;
      sent, got := [], [];
      have := 0;
      mode := if n > 286 || d > 30 then WRONG else LENLENS;
    }

    // One length more.
    method OneLength(r: Reader) returns (ok: bool)
      requires Valid() && r.Valid() && mode == LENLENS && have < ncode
      modifies `have, `sent, lens, r`next, r`hold, r`bits
      ensures Valid() && r.Valid() && mode == LENLENS
      ensures ok ==> HStep(old(Abs(r))) == Some(Abs(r)) && have == old(have) + 1
      ensures !ok ==> have == old(have) && Abs(r) == old(Abs(r)) && r.next == |r.input| && HStep(Abs(r)).None?
    {
      hide Val, RestOf, HStep, Pow2, Header.Reading, Header.Built;
      LengthStep(Abs(r));
      ok := r.NeedBits(3);
      if !ok {
        r.AllTaken();
        return;
      }
      r.BitsInRest();
      OrderOnce(have);
      var v := r.TakeBits(3);
      lens[ORDER[have]] := v;
      sent := sent + [v];
      have := have + 1;
    }

    // The lengths that did not come are zero.
    method ZeroRest()
      requires Shape() && Coming()
      modifies `have, lens
      ensures lens[..19] == InPlace(sent)
    {
      hide InPlace;
      ghost var all := sent;
      PlacesNone();
      PlacesAt(sent);
      while have < 19
        invariant |sent| <= have <= 19
        invariant forall i | 0 <= i < |sent| :: lens[ORDER[i]] == sent[i]
        invariant forall i | |sent| <= i < have :: lens[ORDER[i]] == 0
      {
        OrderOnce(have);
        lens[ORDER[have]] := 0;
        have := have + 1;
      }
      forall s | 0 <= s < 19 ensures lens[s] == InPlace(sent)[s] {
        var i := OrderAll(s);
      }
    }

    // One of the three tables, with the width inflate asks for. It is refused exactly for what the
    // lengths are: there is always room.
    static method MakeTable(kind: CodeType, lens: seq<bitlen>, codes: array<Entry>, start: nat, bits: nat, work: array<nat>)
      returns (ok: bool, next: nat, root: nat)
      requires codes.Length == 1444 && work.Length == 288 && start <= 852
      requires (kind == CODES && bits == 7 && |lens| == 19 && forall s | 0 <= s < 19 :: lens[s] <= 7)
            || (kind == LENS && bits == 9 && |lens| <= 286 && start == 0) || (kind == DISTS && bits == 6 && |lens| <= 30)
      modifies codes, work
      ensures codes[..start] == old(codes[..start])
      ensures ok <==> Acceptable(kind, lens)
      ensures ok ==> start <= next <= codes.Length && (kind == LENS ==> next <= 852)
      ensures ok ==> EntryLookup.Ready(codes[start..next], root, kind, lens)
      ensures ok && kind == CODES ==> root <= 7 && forall s | 0 <= s < |lens| :: lens[s] <= root
    {
      hide Acceptable, Decodes, RootBits, TableSize, SomeCode, Pow2, Usable;
      SevenBits();
      var ret;
      ret, next, root := InflateTable.InflateTable(kind, lens, codes, start, bits, work);
      ok := ret == 0;
      if kind == CODES { WidthAtMost(lens, 7, root); } else { TablesFit(kind, lens, bits, root); }
      if ok { AcceptableUsable(kind, lens); }
    }

    // The table of the code length code, when its lengths have come.
    method BuildCodes(ghost r: Reader)
      requires Valid() && r.Valid() && mode == LENLENS && have == ncode
      modifies `mode, `have, `lenbits, `lenEnd, `got, lens, codes, work
      ensures Valid() && (mode == CODELENS || mode == WRONG) && r.Valid()
      ensures HStep(old(Abs(r))) == Some(Abs(r))
    {
      hide HStep, RestOf, InPlace, Acceptable, EntryLookup.Ready, Header.Built;
      CodesStep(Abs(r));
      ZeroRest();
      SmallPlaces(sent);
      var ok, next, root := MakeTable(CODES, lens[..19], codes, 0, 7, work);
      got := [];
      if !ok {
        mode := WRONG;
        return;
      }
      lenbits, lenEnd := root, next;
      assert codes[..next] == codes[0..next];
      have := 0;
      mode := CODELENS;
    }

    // The lengths of both trees, as far as the input goes.
    method ReadLengths(r: Reader) returns (done: bool)
      requires Valid() && r.Valid() && mode == CODELENS
      modifies `mode, `have, `got, lens, r`next, r`hold, r`bits
      ensures Valid() && r.Valid() && (mode == CODELENS || mode == WRONG)
      ensures HRuns(old(Abs(r)), Abs(r))
      ensures done && mode == CODELENS ==> |got| == nlen + ndist
      ensures !done ==> mode == CODELENS && r.next == |r.input| && HStep(Abs(r)).None?
    {
      hide HStep, RestOf, InPlace, LenStep, EntryLookup.Ready, LenRuns, HRuns, Header.Built, Header.Coming;
      ghost var c := Abs(r);
      var out;
      have, out := CodeLensState(r, codes[..lenEnd], lenbits, lens, have, nlen + ndist, InPlace(sent));
      got := lens[..have];
      LensRuns(c, LenConf(out == Invalid, got, r.Rest()));
      done := out != Starved;
      if out == Invalid { mode := WRONG; }
      if !done { StarvedThere(Abs(r)); }
    }

    // The end of the block has to have a word, and both codes have to make tables.
    method MakeTables() returns (good: bool)
      requires Shape() && Sizes() && Reading() && have == nlen + ndist
      modifies `lenbits, `lenEnd, `distbits, `distEnd, codes, work
      ensures good <==> GoodCodes(got, nlen)
      ensures good ==> Built()
    {
      hide InPlace, Acceptable, EntryLookup.Ready;
      ghost var l, d := got[..nlen], got[nlen..];
      assert lens[..nlen] == l && lens[nlen..have] == d;
      good := lens[256] != 0;
      if !good { return; }
      var next, root;
      good, next, root := MakeTable(LENS, lens[..nlen], codes, 0, 9, work);
      if !good { return; }
      lenEnd, lenbits := next, root;
      assert codes[..next] == codes[0..next];
      good, next, root := MakeTable(DISTS, lens[nlen..have], codes, lenEnd, 6, work);
      if good { distEnd, distbits := next, root; }
    }

    method BuildTables(ghost r: Reader)
      requires Valid() && r.Valid() && mode == CODELENS && |got| == nlen + ndist
      modifies `mode, `lenbits, `lenEnd, `distbits, `distEnd, codes, work
      ensures Valid() && r.Valid() && (mode == CODED || mode == WRONG)
      ensures HStep(old(Abs(r))) == Some(Abs(r))
    {
      hide HStep, RestOf, GoodCodes, EntryLookup.Ready, Header.Coming, Header.Built;
      TablesStep(Abs(r));
      var good := MakeTables();
      mode := if good then CODED else WRONG;
    }

    // What is left to do.
    ghost function Left(): nat
      reads `mode, `have
    {
      match mode
      case TYPEDO => 40
      case TABLE => 39
      case LENLENS => if have <= 19 then 21 - have else 2
      case CODELENS => 1
      case CODED => 0
      case OTHER => 0
      case WRONG => 0
    }

    lemma Arrived()
      requires Valid() && mode == LENLENS
      ensures have <= ncode <= 19
    {}

    // One state, or a part of one.
    method Turn(r: Reader) returns (ok: bool)
      requires Valid() && r.Valid() && (mode == TYPEDO || mode == TABLE || mode == LENLENS || mode == CODELENS)
      modifies this, lens, codes, work, r`next, r`hold, r`bits
      ensures Valid() && r.Valid() && HRuns(old(Abs(r)), Abs(r))
      ensures !ok ==> r.next == |r.input| && HStep(Abs(r)).None?
      ensures ok ==> Left() < old(Left())
    {
      hide HStep, Header.Valid, HSteps, HRuns;
      ghost var c := Abs(r);
      HRunsZero(c);
      if mode == LENLENS { Arrived(); }
      match mode
      case TYPEDO => ok := TypeState(r); if ok { HRunsStep(c); }
      case TABLE => ok := TableState(r); if ok { HRunsStep(c); }
      case LENLENS =>
        if have < ncode {
          ok := OneLength(r);
        } else {
          ok := true;
          BuildCodes(r);
        }
        if ok { HRunsStep(c); }
      case CODELENS =>
        ok := ReadLengths(r);
        if ok && mode == CODELENS {
          ghost var d := Abs(r);
          BuildTables(r);
          HRunsStep(d);
          HRunsTrans(c, d, Abs(r));
        }
    }

    // inflate() on a block's header: it runs to the codes, to an error, to a block of another
    // kind, or to where the input ends.
    method Read(r: Reader)
      requires Valid() && r.Valid()
      modifies this, lens, codes, work, r`next, r`hold, r`bits
      ensures Valid() && r.Valid() && HRuns(old(Abs(r)), Abs(r))
      ensures mode == CODED || mode == OTHER || mode == WRONG || (r.next == |r.input| && HStep(Abs(r)).None?)
    {
      hide HStep, Header.Valid, HSteps, HRuns;
      ghost var c := Abs(r);
      HRunsZero(c);
      var ok := true;
      while mode == TYPEDO || mode == TABLE || mode == LENLENS || mode == CODELENS
        invariant Valid() && r.Valid() && HRuns(c, Abs(r))
        decreases Left()
      {
        ghost var d := Abs(r);
        ok := Turn(r);
        HRunsTrans(c, d, Abs(r));
        if !ok { return; }
      }
    }
  }

  // Every symbol has one place.
  lemma OrderOnce(k: nat)
    requires k < 19
    ensures ORDER[k] < 19 && forall i | 0 <= i < 19 && i != k :: ORDER[i] != ORDER[k]
  {}

  lemma OrderAll(s: nat) returns (i: nat)
    requires s < 19
    ensures i < 19 && ORDER[i] == s
  {
    i := [3, 17, 15, 13, 11, 9, 7, 5, 4, 6, 8, 10, 12, 14, 16, 18, 0, 1, 2][s];
  }

  lemma PlacesNone()
    ensures InPlace([]) == seq(19, _ => 0)
  {}

  // Each length stands where its place says, and the others are zero.
  lemma {:induction false} PlacesAt(sent: seq<bitlen>)
    requires |sent| <= 19
    ensures forall i | 0 <= i < 19 :: InPlace(sent)[ORDER[i]] == if i < |sent| then sent[i] else 0
  {
    var n := |sent| - 1;
    if sent != [] {
      PlacesAt(sent[..n]);
      OrderOnce(n);
    }
  }

  lemma SmallPlaces(sent: seq<bitlen>)
    requires |sent| <= 19 && forall i | 0 <= i < |sent| :: sent[i] <= 7
    ensures forall s | 0 <= s < 19 :: InPlace(sent)[s] <= 7
  {
    hide InPlace;
    PlacesAt(sent);
    forall s | 0 <= s < 19 ensures InPlace(sent)[s] <= 7 {
      var i := OrderAll(s);
    }
  }

  lemma SevenBits()
    ensures Pow2(7) == 128
  {}

  // Lengths that inflate_table accepts decode every input.
  lemma AcceptableUsable(kind: CodeType, lens: seq<bitlen>)
    requires Acceptable(kind, lens)
    ensures Usable(lens)
  {
    if forall s :: 0 <= s < |lens| ==> lens[s] == 0 { NoneUsed(lens, |lens|); }
  }

  lemma {:induction false} NoneUsed(lens: seq<bitlen>, n: nat)
    requires n <= |lens| && forall s | 0 <= s < n :: lens[s] == 0
    ensures Below(lens, n, 16, 0) == 0 < Pow2(15)
  {
    if n > 0 { NoneUsed(lens, n - 1); }
  }

  lemma WidthAtMost(lens: seq<bitlen>, bits: nat, root: nat)
    requires RootBits(lens, bits, root) && 1 <= bits && forall s | 0 <= s < |lens| :: lens[s] <= bits
    ensures root <= bits
  {}

  lemma LensRuns(c: HConf, l: LenConf)
    requires c.mode == CODELENS
    requires LenRuns(InPlace(c.sent), c.nlen + c.ndist, LenConf(false, c.lens, c.rest), l)
    ensures HRuns(c, c.(mode := if l.bad then WRONG else CODELENS, lens := l.lens, rest := l.rest))
  {
    hide LenStep, HRuns;
    var n: nat :| LenSteps(InPlace(c.sent), c.nlen + c.ndist, LenConf(false, c.lens, c.rest), n) == Some(l);
    LensRun(c, l, n);
  }

  lemma StarvedThere(c: HConf)
    requires c.mode == CODELENS && LenStep(InPlace(c.sent), c.nlen + c.ndist, LenConf(false, c.lens, c.rest)).None?
    requires |c.lens| < c.nlen + c.ndist
    ensures HStep(c).None?
  {
    hide LenStep;
  }

  // There is always room for the tables, so they are refused exactly for what the lengths are.
  lemma TablesFit(kind: CodeType, lens: seq<bitlen>, bits: nat, root: nat)
    requires RootBits(lens, bits, root)
    requires (kind == LENS && bits == 9 && |lens| <= 286) || (kind == DISTS && bits == 6 && |lens| <= 30)
    ensures Acceptable(kind, lens) && SomeCode(lens) ==> !Exceeds(kind, TableSize(lens, root))
  {
    hide TableSize, SomeCode, Acceptable, RootBits;
    if Acceptable(kind, lens) && SomeCode(lens) { Enough(kind, lens, bits, root); }
  }
}
