// What decoding a compressed block means (sections 3.2.3 and 3.2.5 of RFC 1951):
// a deterministic machine that consumes bits and appends bytes. Both of the
// decoder's loops are proved to run this machine, and so agree.

module BlockDecoding {
  import opened Powers
  import opened Bits
  import opened Canonical
  import opened TableLayout

  datatype Option<+T> = None | Some(value: T)

  // The codes of a block: literal/length and distance code lengths.
  datatype Codes = Codes(llens: seq<bitlen>, dlens: seq<bitlen>)

  ghost predicate ValidCodes(p: Codes) {
    && |p.llens| <= MaxSymbols(LENS) && |p.dlens| <= MaxSymbols(DISTS)
    && Kraft(p.llens) <= Pow2(15) && Kraft(p.dlens) <= Pow2(15)
  }

  datatype Mode = LEN | LENEXT | DIST | DISTEXT | MATCH | LIT | TYPE | BAD

  // rest: the bits still to be read. out: everything written so far.
  // seen: how many of the latest bytes of out a copy may still reach.
  datatype Conf = Conf(mode: Mode, length: nat, offset: nat, extra: nat, rest: seq<bool>, out: seq<byte>, seen: nat)

  // ------------------------------------------------------------ one code word

  datatype Look = Found(sym: nat) | Wrong | More

  ghost predicate Matches(lens: seq<bitlen>, bs: seq<bool>, s: nat) {
    Coded(lens, s) && lens[s] <= |bs| && Lo(Val(bs), lens[s]) == Huff(lens, s)
  }

  // The symbol at the front of bs; Wrong when no extension of bs has one.
  ghost function LookUp(lens: seq<bitlen>, bs: seq<bool>): (r: Look)
    ensures r.Found? ==> Matches(lens, bs, r.sym)
    ensures r.Wrong? ==> |bs| >= 1 && Undecodable(lens, Val(bs))
  {
    if exists s: nat :: Matches(lens, bs, s) then
      var s: nat :| Matches(lens, bs, s); Found(s)
    else if |bs| >= 1 && Undecodable(lens, Val(bs)) then Wrong
    else More
  }

  lemma LookUpIs(lens: seq<bitlen>, bs: seq<bool>, s: nat)
    requires Matches(lens, bs, s) && Kraft(lens) <= Pow2(15)
    ensures LookUp(lens, bs) == Found(s)
  {
    var t := LookUp(lens, bs).sym;
    PrefixFree(lens, s, t, Val(bs));
  }

  // ------------------------------------------------------------ the machine

  // Length, offset and extra only matter in some modes; elsewhere they are 0.
  function Normal(c: Conf): Conf {
    c.(length := if c.mode.LEN? || c.mode.TYPE? || c.mode.BAD? then 0 else c.length,
       offset := if c.mode.DISTEXT? || c.mode.MATCH? then c.offset else 0,
       extra := if c.mode.LENEXT? || c.mode.DISTEXT? then c.extra else 0)
  }

  ghost function Step(p: Codes, c: Conf): Option<Conf> {
    match c.mode
    case LEN =>
      (match LookUp(p.llens, c.rest)
       case Found(s) =>
         var d := c.(rest := c.rest[p.llens[s]..]);
         if s < 256 then Some(Normal(d.(mode := LIT, length := s)))
         else if s == 256 then Some(Normal(d.(mode := TYPE)))
         else if s < 286 then
           Some(Normal(d.(mode := LENEXT, length := LengthBase(s - 257), extra := LengthExtra(s - 257))))
         else Some(Normal(d.(mode := BAD)))
       case Wrong => Some(Normal(c.(mode := BAD, rest := c.rest[1..])))
       case More => None)
    case LENEXT =>
      if c.extra <= |c.rest| then
        Some(Normal(c.(mode := DIST, length := c.length + Val(c.rest[..c.extra]), rest := c.rest[c.extra..])))
      else None
    case DIST =>
      (match LookUp(p.dlens, c.rest)
       case Found(s) =>
         var d := c.(rest := c.rest[p.dlens[s]..]);
         if s < 30 then Some(Normal(d.(mode := DISTEXT, offset := DistBase(s), extra := DistExtra(s))))
         else Some(Normal(d.(mode := BAD)))
       case Wrong => Some(Normal(c.(mode := BAD, rest := c.rest[1..])))
       case More => None)
    case DISTEXT =>
      if c.extra <= |c.rest| then
        Some(Normal(c.(mode := MATCH, offset := c.offset + Val(c.rest[..c.extra]), rest := c.rest[c.extra..])))
      else None
    case MATCH =>
      if c.offset == 0 || c.length == 0 || c.seen > |c.out| then None
      else if c.offset > c.seen then Some(Normal(c.(mode := BAD)))
      else
        Some(Normal(c.(mode := if c.length == 1 then LEN else MATCH, length := c.length - 1,
                       out := c.out + [c.out[|c.out| - c.offset]], seen := c.seen + 1)))
    case LIT =>
      if c.length < 256 then Some(Normal(c.(mode := LEN, out := c.out + [c.length], seen := c.seen + 1))) else None
    case TYPE => None
    case BAD => None
  }

  ghost function Steps(p: Codes, c: Conf, n: nat): Option<Conf>
    decreases n
  {
    if n == 0 then Some(c)
    else match Step(p, c) case None => None case Some(c') => Steps(p, c', n - 1)
  }

  // The machine gets from c to c'.
  ghost predicate Runs(p: Codes, c: Conf, c': Conf) {
    exists n: nat :: Steps(p, c, n) == Some(c')
  }

  lemma RunsZero(p: Codes, c: Conf)
    ensures Runs(p, c, c)
  {
    assert Steps(p, c, 0) == Some(c);
  }

  lemma RunsStep(p: Codes, c: Conf, c': Conf)
    requires Step(p, c) == Some(c')
    ensures Runs(p, c, c')
  {
    assert Steps(p, c', 0) == Some(c');
    assert Steps(p, c, 1) == Some(c');
  }

  lemma {:induction false} StepsAdd(p: Codes, c: Conf, m: nat, n: nat)
    requires Steps(p, c, m).Some?
    ensures Steps(p, c, m + n) == Steps(p, Steps(p, c, m).value, n)
    decreases m
  {
    hide Step;
    if m > 0 { StepsAdd(p, Step(p, c).value, m - 1, n); }
  }

  lemma RunsTrans(p: Codes, a: Conf, b: Conf, c: Conf)
    requires Runs(p, a, b) && Runs(p, b, c)
    ensures Runs(p, a, c)
  {
    var m: nat :| Steps(p, a, m) == Some(b);
    var n: nat :| Steps(p, b, n) == Some(c);
    StepsAdd(p, a, m, n);
  }

  lemma RunsThen(p: Codes, a: Conf, b: Conf, c: Conf)
    requires Runs(p, a, b) && Step(p, b) == Some(c)
    ensures Runs(p, a, c)
  {
    RunsStep(p, b, c);
    RunsTrans(p, a, b, c);
  }

  // The machine is deterministic: two runs from one place are one run cut at two points,
  // and two runs that cannot go on end in the same place.
  lemma RunsOneWay(p: Codes, a: Conf, b: Conf, c: Conf)
    requires Runs(p, a, b) && Runs(p, a, c)
    ensures Runs(p, b, c) || Runs(p, c, b)
    ensures Step(p, b).None? && Step(p, c).None? ==> b == c
  {
    hide Step;
    var m: nat :| Steps(p, a, m) == Some(b);
    var n: nat :| Steps(p, a, n) == Some(c);
    if m <= n { LaterPart(p, a, m, n); } else { LaterPart(p, a, n, m); }
  }

  lemma LaterPart(p: Codes, a: Conf, m: nat, n: nat)
    requires m <= n && Steps(p, a, m).Some? && Steps(p, a, n).Some?
    ensures Runs(p, Steps(p, a, m).value, Steps(p, a, n).value)
    ensures Step(p, Steps(p, a, m).value).None? ==> Steps(p, a, m) == Steps(p, a, n)
  {
    hide Step;
    StepsAdd(p, a, m, n - m);
  }

  // A run only takes bits from the front.
  predicate SuffixOf<T(==)>(s: seq<T>, t: seq<T>) {
    |s| <= |t| && s == t[|t| - |s|..]
  }

  lemma RunsSuffix(p: Codes, a: Conf, b: Conf)
    requires Runs(p, a, b)
    ensures SuffixOf(b.rest, a.rest)
  {
    var n: nat :| Steps(p, a, n) == Some(b);
    StepsSuffix(p, a, n);
  }

  lemma {:induction false} StepsSuffix(p: Codes, a: Conf, n: nat)
    requires Steps(p, a, n).Some?
    ensures SuffixOf(Steps(p, a, n).value.rest, a.rest)
    decreases n
  {
    hide SuffixOf, Step;
    if n == 0 {
      SuffixSelf(a.rest);
    } else {
      var c := Step(p, a).value;
      StepSuffix(p, a);
      StepsSuffix(p, c, n - 1);
      SuffixTrans(Steps(p, a, n).value.rest, c.rest, a.rest);
    }
  }

  lemma SuffixSelf<T>(s: seq<T>)
    ensures SuffixOf(s, s)
  {}

  lemma SuffixTrans<T>(s: seq<T>, t: seq<T>, u: seq<T>)
    requires SuffixOf(s, t) && SuffixOf(t, u)
    ensures SuffixOf(s, u)
  {
    assert u[|u| - |s|..] == u[|u| - |t|..][|t| - |s|..];
  }

  lemma DropIsSuffix<T>(s: seq<T>, n: nat)
    requires n <= |s|
    ensures SuffixOf(s[n..], s)
  {}

  lemma StepSuffix(p: Codes, c: Conf)
    requires Step(p, c).Some?
    ensures SuffixOf(Step(p, c).value.rest, c.rest)
  {
    hide SuffixOf, LengthBase, LengthExtra, DistBase, DistExtra, Lo, Huff, Undecodable;
    SuffixSelf(c.rest);
    var d := Step(p, c).value;
    if c.mode == LEN || c.mode == DIST {
      var lens := if c.mode == LEN then p.llens else p.dlens;
      match LookUp(lens, c.rest)
      case Found(s) => DropIsSuffix(c.rest, lens[s]);
      case Wrong => DropIsSuffix(c.rest, 1);
    } else if c.mode == LENEXT || c.mode == DISTEXT {
      DropIsSuffix(c.rest, c.extra);
    }
  }

  // ------------------------------------------------------------ more input

  // Input that has not arrived yet does not change a step already possible.
  lemma LookUpExtends(lens: seq<bitlen>, bs: seq<bool>, more: seq<bool>)
    requires Kraft(lens) <= Pow2(15) && LookUp(lens, bs).Found?
    ensures LookUp(lens, bs + more) == LookUp(lens, bs)
  {
    var s := LookUp(lens, bs).sym;
    FrontMatches(lens, bs, more, s);
    LookUpIs(lens, bs + more, s);
  }

  lemma FrontMatches(lens: seq<bitlen>, bs: seq<bool>, more: seq<bool>, s: nat)
    requires Matches(lens, bs, s)
    ensures Matches(lens, bs + more, s)
  {
    var l := lens[s];
    ValSplit(bs, l);
    ValSplit(bs + more, l);
    assert (bs + more)[..l] == bs[..l];
  }

  // A code word read from a string that begins with its bits.
  lemma CodeBitsMatch(lens: seq<bitlen>, s: nat, more: seq<bool>)
    requires Coded(lens, s)
    ensures Matches(lens, CodeBits(lens, s) + more, s)
  {
    var bs := CodeBits(lens, s);
    ValBitsOf(Huff(lens, s), lens[s]);
    LoSmall(Huff(lens, s), lens[s]);
    assert Lo(Val(bs), lens[s]) == Huff(lens, s);
    FrontMatches(lens, bs, more, s);
  }
}
