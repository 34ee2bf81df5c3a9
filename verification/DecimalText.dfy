// Decimals as text (src/runtime/decimal.cpp:28-99, 109-151): the parser rounds half to even at
// the 34th written digit, and reading a printed decimal gives the value back unless digits below
// the 34th written one are lost.

module DecimalText {
  import opened Powers
  import opened Decimal128
  import opened DecimalArith

  type digit = d: nat | d < 10

  // ------------------------------------------------------------ numbers as digits

  function Number(ds: seq<digit>): nat {
    if ds == [] then 0 else 10 * Number(ds[..|ds| - 1]) + ds[|ds| - 1]
  }

  lemma {:induction false} NumberAppends(s: seq<digit>, t: seq<digit>)
    ensures Number(s + t) == Number(s) * Pow10(|t|) + Number(t)
  {
    if t == [] {
      assert s + t == s;
    } else {
      var t' := t[..|t| - 1];
      NumberAppends(s, t');
      assert (s + t)[..|s + t| - 1] == s + t';
      MulAssoc(Number(s), Pow10(|t'|), 10);
    }
  }

  lemma {:induction false} NumberBelow(s: seq<digit>)
    ensures Number(s) < Pow10(|s|)
  {
    if s != [] { NumberBelow(s[..|s| - 1]); }
  }

  function Zeros(n: nat): (s: seq<digit>)
    ensures |s| == n
  {
    seq(n, i => 0)
  }

  lemma {:induction false} NumberZeros(n: nat)
    ensures Number(Zeros(n)) == 0
  {
    if n > 0 {
      NumberZeros(n - 1);
      assert Zeros(n)[..n - 1] == Zeros(n - 1);
    }
  }

  // The digits of v, highest first, as many as NumDigits counts.
  function DigitsOf(v: nat): (s: seq<digit>)
    ensures |s| == NumDigits(v)
  {
    if v < 10 then [v] else DigitsOf(v / 10) + [v % 10]
  }

  lemma {:induction false} NumberOfDigits(v: nat)
    ensures Number(DigitsOf(v)) == v
  {
    if v < 10 {
      assert Number([v]) == 10 * Number([]) + v by { assert [v][..0] == []; }
    } else {
      NumberOfDigits(v / 10);
      var s := DigitsOf(v / 10) + [v % 10];
      assert s[..|s| - 1] == DigitsOf(v / 10);
    }
  }

  // ------------------------------------------------------------ literals

  predicate IsDigit(c: char) { '0' <= c <= '9' }

  function DigitOf(c: char): digit
    requires IsDigit(c)
  {
    c as int - '0' as int
  }

  function CharOf(d: digit): char { ('0' as int + d) as char }

  // The written digits from p on, how many of them follow a dot, and where they end.
  datatype Scanned = Scanned(digits: seq<digit>, frac: nat, end: nat)

  function Scan(s: string, p: nat, dot: bool): (r: Scanned)
    requires p <= |s|
    ensures p <= r.end <= |s| && r.frac <= |r.digits|
    decreases |s| - p
  {
    if p == |s| then Scanned([], 0, p)
    else if s[p] == '_' then Scan(s, p + 1, dot)
    else if s[p] == '.' then (if dot then Scanned([], 0, p) else Scan(s, p + 1, true))
    else if !IsDigit(s[p]) then Scanned([], 0, p)
    else
      var r := Scan(s, p + 1, dot);
      Scanned([DigitOf(s[p])] + r.digits, r.frac + (if dot then 1 else 0), r.end)
  }

  function SkipSpaces(s: string, p: nat): (r: nat)
    requires p <= |s|
    ensures p <= r <= |s|
    decreases |s| - p
  {
    if p < |s| && s[p] == ' ' then SkipSpaces(s, p + 1) else p
  }

  predicate Signed?(s: string, p: nat) { p < |s| && (s[p] == '+' || s[p] == '-') }

  predicate Minus?(s: string, p: nat) { p < |s| && s[p] == '-' }

  function AfterSign(s: string, p: nat): (r: nat)
    requires p <= |s|
    ensures p <= r <= |s|
  {
    if Signed?(s, p) then p + 1 else p
  }

  function ReadInt(s: string, p: nat, v: nat): nat
    requires p <= |s|
    decreases |s| - p
  {
    if p < |s| && IsDigit(s[p]) then ReadInt(s, p + 1, v * 10 + DigitOf(s[p])) else v
  }

  // The exponent at p: zero when there is none.
  function ReadExponent(s: string, p: nat): int
    requires p <= |s|
  {
    if p < |s| && (s[p] == 'e' || s[p] == 'E') then
      Signed(Minus?(s, p + 1), ReadInt(s, AfterSign(s, p + 1), 0))
    else 0
  }

  // The value written: (-1)^neg * Number(digits) * 10^exp.
  datatype Literal = Literal(neg: bool, digits: seq<digit>, exp: int)

  function Read(s: string): Literal {
    var p := SkipSpaces(s, 0);
    var r := Scan(s, AfterSign(s, p), false);
    Literal(Minus?(s, p), r.digits, ReadExponent(s, r.end) - r.frac)
  }

  // ------------------------------------------------------------ rounding at the 34th written digit

  // Written digits past the 34th.
  function Past(n: nat): nat { if n > MAX_DIGITS then n - MAX_DIGITS else 0 }

  function Significand(ds: seq<digit>): nat { Rounded(Number(ds), Pow10(Past(|ds|))) }

  // The carry out of the top is renormalised.
  function Kept(ds: seq<digit>): nat {
    if Significand(ds) == Pow10(34) then Pow10(33) else Significand(ds)
  }

  function Shift(ds: seq<digit>): nat {
    Past(|ds|) + (if Significand(ds) == Pow10(34) then 1 else 0)
  }

  // The literal rounded half to even there.
  function RoundLiteral(l: Literal): Dec { Dec(l.neg, Kept(l.digits), l.exp + Shift(l.digits)) }

  // ------------------------------------------------------------ the parser's loop

  // The digits so far: the first 34 in the coefficient, the next one apart, and whether any
  // digit after it was not zero.
  datatype Progress = Progress(coeff: nat, digits: nat, frac: int, dot: bool, round: int, sticky: bool)

  predicate SomeDigit(ds: seq<digit>) { Number(ds) > 0 }

  ghost predicate Reads(g: Progress, ds: seq<digit>, frac: nat) {
    && g.digits == |ds| - Past(|ds|)
    && g.coeff == Number(ds[..g.digits])
    && g.frac == frac - Past(|ds|)
    && (g.round < 0 <==> |ds| <= MAX_DIGITS)
    && (|ds| > MAX_DIGITS ==> g.round == ds[MAX_DIGITS] && (g.sticky <==> SomeDigit(ds[MAX_DIGITS + 1..])))
    && (|ds| <= MAX_DIGITS ==> !g.sticky)
  }

  // One digit more.
  function Feed(g: Progress, d: digit): Progress {
    if g.digits < MAX_DIGITS then
      g.(coeff := g.coeff * 10 + d, digits := g.digits + 1, frac := g.frac + (if g.dot then 1 else 0))
    else
      var frac := if g.dot then g.frac else g.frac - 1;
      if g.round < 0 then g.(frac := frac, round := d)
      else g.(frac := frac, sticky := g.sticky || d != 0)
  }

  lemma NumberNext(ds: seq<digit>, d: digit)
    ensures Number(ds + [d]) == 10 * Number(ds) + d
  {
    assert (ds + [d])[..|ds|] == ds;
  }

  lemma FeedReads(g: Progress, ds: seq<digit>, frac: nat, d: digit)
    requires Reads(g, ds, frac)
    ensures Reads(Feed(g, d), ds + [d], frac + (if g.dot then 1 else 0))
  {
    hide Number;
    var es := ds + [d];
    if |ds| < MAX_DIGITS {
      assert ds[..|ds|] == ds && es[..|es|] == es;
      NumberNext(ds, d);
    } else {
      assert es[..MAX_DIGITS] == ds[..MAX_DIGITS];
      if |ds| > MAX_DIGITS {
        assert es[MAX_DIGITS + 1..] == ds[MAX_DIGITS + 1..] + [d];
        NumberNext(ds[MAX_DIGITS + 1..], d);
      } else {
        assert es[MAX_DIGITS + 1..] == [];
        NumberNone();
      }
    }
  }

  lemma NumberNone()
    ensures Number([]) == 0
  {}

  lemma FeedFits(g: Progress, ds: seq<digit>, frac: nat)
    requires Reads(g, ds, frac)
    ensures g.coeff < Pow10(34)
    ensures g.digits < MAX_DIGITS ==> g.coeff * 10 + 9 < Pow10(34)
  {
    hide Number;
    NumberBelow(ds[..g.digits]);
    Pow10Mono(g.digits, 34);
    if g.digits < MAX_DIGITS { Pow10Mono(g.digits + 1, 34); }
  }

  // What the guard digit and the sticky bit decide is the rounding half to even.
  function RoundUp(coeff: nat, round: int, sticky: bool): bool {
    round > 5 || (round == 5 && (sticky || coeff % 2 == 1))
  }

  lemma GuardRounds(ds: seq<digit>, coeff: nat, round: int, sticky: bool)
    requires |ds| > MAX_DIGITS && coeff == Number(ds[..MAX_DIGITS])
    requires round == ds[MAX_DIGITS] && (sticky <==> SomeDigit(ds[MAX_DIGITS + 1..]))
    ensures Rounded(Number(ds), Pow10(Past(|ds|))) == (if RoundUp(coeff, round, sticky) then coeff + 1 else coeff)
  {
    hide Number, Rounded, Nearest;
    var k := Past(|ds|);
    var a, b, c := ds[..MAX_DIGITS], [ds[MAX_DIGITS]], ds[MAX_DIGITS + 1..];
    assert ds == a + (b + c);
    NumberAppends(a, b + c);
    NumberAppends(b, c);
    assert b == [] + b;
    NumberNext([], ds[MAX_DIGITS]);
    NumberNone();
    NumberBelow(c);
    NumberBelow(b + c);
    var half := Pow10(k - 1);
    assert Pow10(k) == 10 * half;
    var r := Number(b + c);
    assert r == round * half + Number(c);
    GuardDecides(round, half, Number(c));
    NearestFound(Number(ds), Pow10(k), coeff, r);
    RoundedIs(if RoundUp(coeff, round, sticky) then coeff + 1 else coeff, Number(ds), Pow10(k));
  }

  lemma GuardDecides(d: digit, u: nat, c: nat)
    requires c < u
    ensures 2 * (d * u + c) > 10 * u <==> d > 5 || (d == 5 && c > 0)
    ensures 2 * (d * u + c) == 10 * u <==> d == 5 && c == 0
  {
    if d >= 6 {
      MulMono(6, d, u);
    } else if d <= 4 {
      MulMono(d, 4, u);
    }
  }

  // ------------------------------------------------------------ the parser

  // What is scanned from p on, after ds with frac of them behind a dot.
  ghost predicate Ahead(s: string, p0: nat, p: nat, dot: bool, ds: seq<digit>, frac: nat)
    requires p0 <= |s| && p <= |s|
  {
    var r := Scan(s, p, dot);
    Scan(s, p0, false) == Scanned(ds + r.digits, frac + r.frac, r.end)
  }

  lemma AheadStart(s: string, p: nat)
    requires p <= |s|
    ensures Ahead(s, p, p, false, [], 0)
  {
    assert [] + Scan(s, p, false).digits == Scan(s, p, false).digits;
  }

  lemma AheadDigit(s: string, p0: nat, p: nat, dot: bool, ds: seq<digit>, frac: nat)
    requires p0 <= |s| && p < |s| && IsDigit(s[p]) && Ahead(s, p0, p, dot, ds, frac)
    ensures Ahead(s, p0, p + 1, dot, ds + [DigitOf(s[p])], frac + (if dot then 1 else 0))
  {
    var r := Scan(s, p + 1, dot).digits;
    assert ds + ([DigitOf(s[p])] + r) == ds + [DigitOf(s[p])] + r;
  }

  lemma AheadEnd(s: string, p0: nat, p: nat, dot: bool, ds: seq<digit>, frac: nat)
    requires p0 <= |s| && p <= |s| && Ahead(s, p0, p, dot, ds, frac)
    requires Scan(s, p, dot) == Scanned([], 0, p)
    ensures Scan(s, p0, false) == Scanned(ds, frac, p)
  {
    assert ds + [] == ds;
  }

  // The digits of the literal: the coefficient, the guard digit and the sticky bit.
  method ScanDigits(s: string, from: nat) returns (g: Progress, p: nat)
    requires from <= |s|
    ensures p <= |s| && g.coeff < Pow10(34)
    ensures var r := Scan(s, from, false); Reads(g, r.digits, r.frac) && p == r.end
  {
    hide Number, Ahead, Reads, Feed, Pow10;
    g, p := Progress(0, 0, 0, false, -1, false), from;
    ghost var ds: seq<digit>, fr: nat := [], 0;
    NoneRead();
    AheadStart(s, from);
    while p < |s|
      invariant p <= |s| && Reads(g, ds, fr) && Ahead(s, from, p, g.dot, ds, fr)
    {
      var c := s[p];
      if c == '_' {
        AheadSame(s, from, p, g.dot, g.dot, ds, fr);
        p := p + 1;
        continue;
      }
      if c == '.' {
        if g.dot { break; }
        AheadSame(s, from, p, false, true, ds, fr);
        DotReads(g, ds, fr);
        g := g.(dot := true);
        p := p + 1;
        continue;
      }
      if c == 'e' || c == 'E' { break; }
      if c < '0' || c > '9' { break; }
      var dv := DigitOf(c);
      FeedFits(g, ds, fr);
      FeedReads(g, ds, fr, dv);
      AheadDigit(s, from, p, g.dot, ds, fr);
      FeedDot(g, dv);
      ds, fr := ds + [dv], fr + (if g.dot then 1 else 0);
      g := Feed(g, dv);
      p := p + 1;
    }
    AheadEnd(s, from, p, g.dot, ds, fr);
    FeedFits(g, ds, fr);
  }

  lemma NoneRead()
    ensures Reads(Progress(0, 0, 0, false, -1, false), [], 0)
  {}

  lemma AheadSame(s: string, p0: nat, p: nat, dot: bool, dot': bool, ds: seq<digit>, frac: nat)
    requires p0 <= |s| && p < |s| && Ahead(s, p0, p, dot, ds, frac)
    requires (s[p] == '_' && dot == dot') || (s[p] == '.' && !dot && dot')
    ensures Ahead(s, p0, p + 1, dot', ds, frac)
  {}

  lemma DotReads(g: Progress, ds: seq<digit>, frac: nat)
    requires Reads(g, ds, frac)
    ensures Reads(g.(dot := true), ds, frac)
  {}

  lemma FeedDot(g: Progress, d: digit)
    ensures Feed(g, d).dot == g.dot
  {}

  // The digits past the 34th are rounded away, once.
  method Finish(g: Progress, ghost ds: seq<digit>, ghost frac: nat) returns (coeff: u128, exp: int)
    requires Reads(g, ds, frac) && g.coeff < Pow10(34)
    ensures coeff == Kept(ds) && exp == Shift(ds) - frac
  {
    hide Number, Pow10, Rounded, NumDigits;
    Pow10Size();
    ReadsRounded(g, ds, frac);
    coeff, exp := g.coeff, -g.frac;
    CarryDrops(coeff);
    if g.round >= 0 {
      var up := false;
      if g.round > 5 {
        up := true;
      } else if g.round == 5 {
        up := if g.sticky then true else coeff % 2 != 0;
      }
      if up {
        coeff := coeff + 1;
        var n := DecNumDigits(coeff);
        if n > MAX_DIGITS {
          coeff := coeff / 10;
          exp := exp + 1;
        }
      }
    }
  }

  lemma CarryDrops(coeff: nat)
    requires coeff < Pow10(34)
    ensures NumDigits(coeff + 1) > MAX_DIGITS <==> coeff + 1 == Pow10(34)
    ensures Pow10(34) / 10 == Pow10(33)
  {
    hide NumDigits, Pow10;
    TenTimes(34);
    DigitsAtMost(coeff + 1, 34);
  }

  lemma ReadsRounded(g: Progress, ds: seq<digit>, frac: nat)
    requires Reads(g, ds, frac)
    ensures Significand(ds)
         == (if g.round >= 0 && RoundUp(g.coeff, g.round, g.sticky) then g.coeff + 1 else g.coeff)
  {
    hide Number, Rounded;
    if g.round >= 0 {
      GuardRounds(ds, g.coeff, g.round, g.sticky);
    } else {
      assert ds[..|ds|] == ds;
      RoundOne(Number(ds));
    }
  }

  method SkipBlanks(s: string) returns (p: nat)
    ensures p <= |s| && p == SkipSpaces(s, 0)
  {
    hide SkipSpaces;
    p := 0;
    while p < |s| && s[p] == ' '
      invariant p <= |s| && SkipSpaces(s, p) == SkipSpaces(s, 0)
    {
      SkipOne(s, p);
      p := p + 1;
    }
    SkipNone(s, p);
  }

  // ------------------------------------------------------------ whole literals

  // A literal as it is written: blanks, a sign, digits with '_' anywhere among them, a point and
  // more of them, an exponent mark, its sign and its digits; any part may be missing.
  datatype Spelling = Spelling(blanks: nat, sign: string, whole: string, point: bool, frac: string,
                               mark: string, expSign: string, exp: string)

  predicate SignText(t: string) { t == "" || t == "+" || t == "-" }

  predicate DigitText(t: string) { forall i | 0 <= i < |t| :: '0' <= t[i] <= '9' }

  predicate SpacedText(t: string) { forall i | 0 <= i < |t| :: '0' <= t[i] <= '9' || t[i] == '_' }

  predicate Proper(w: Spelling) {
    && SignText(w.sign) && SignText(w.expSign) && SpacedText(w.whole) && SpacedText(w.frac) && DigitText(w.exp)
    && (!w.point ==> w.frac == "")
    && (w.mark == "" || w.mark == "e" || w.mark == "E")
    && (w.mark == "" ==> w.expSign == "" && w.exp == "")
  }

  function Blanks(n: nat): (t: string)
    ensures |t| == n
  {
    seq(n, _ => ' ')
  }

  function Tail(w: Spelling): string { w.mark + (w.expSign + w.exp) }

  function Fraction(w: Spelling): string { (if w.point then "." + w.frac else "") + Tail(w) }

  function TextOf(w: Spelling): string { Blanks(w.blanks) + (w.sign + (w.whole + Fraction(w))) }

  // The digits among the characters.
  function DigitsIn(t: string): (ds: seq<digit>)
    requires SpacedText(t)
  {
    if t == "" then []
    else (if t[0] == '_' then [] else [t[0] as int - '0' as int]) + DigitsIn(t[1..])
  }

  // The decimal is n times ten to the e, with a minus sign or not; of m written digits those past
  // the 34th are rounded away half to even, and a carry to 35 digits is taken into the exponent.
  ghost predicate Denotes(d: Dec, neg: bool, n: nat, m: nat, e: int) {
    && d.sign == neg
    && if m <= 34 then d.coeff == n && d.exp == e
       else
         var k := m - 34;
         var unit := Pow10(k);
         exists q: nat :: Nearest(q, n, unit) &&
           (if q < Pow10(34) then d.coeff == q && d.exp == e + k
            else q == Pow10(34) && d.coeff == Pow10(33) && d.exp == e + k + 1)
  }

  ghost predicate Spells(d: Dec, w: Spelling)
    requires Proper(w)
  {
    var ds := DigitsIn(w.whole + w.frac);
    var c: int := Number(DigitsIn(w.exp));
    Denotes(d, w.sign == "-", Number(ds), |ds|, (if w.expSign == "-" then -c else c) - |DigitsIn(w.frac)|)
  }

  lemma {:induction false} DigitsInAppends(s: string, t: string)
    requires SpacedText(s) && SpacedText(t)
    ensures SpacedText(s + t) && DigitsIn(s + t) == DigitsIn(s) + DigitsIn(t)
  {
    hide DigitsIn;
    if s == "" {
      assert s + t == t;
      NoDigits();
    } else {
      assert (s + t)[1..] == s[1..] + t;
      DigitsInAppends(s[1..], t);
      FrontDigits(s);
      FrontDigits(s + t);
    }
  }

  // Digits and '_' are scanned one after the other.
  lemma {:induction false} ScanPart(pre: string, t: string, post: string, dot: bool)
    requires SpacedText(t)
    ensures var s := pre + (t + post); var r := Scan(s, |pre| + |t|, dot);
      Scan(s, |pre|, dot) == Scanned(DigitsIn(t) + r.digits, r.frac + (if dot then |DigitsIn(t)| else 0), r.end)
    decreases |t|
  {
    hide DigitsIn, Scan;
    var s := pre + (t + post);
    if t == "" {
      NoDigits();
      assert [] + Scan(s, |pre|, dot).digits == Scan(s, |pre|, dot).digits;
    } else {
      assert s == (pre + [t[0]]) + (t[1..] + post);
      assert s[|pre|] == t[0];
      ScanPart(pre + [t[0]], t[1..], post, dot);
      ScanOne(s, |pre|, dot, t);
    }
  }

  lemma ScanOne(s: string, p: nat, dot: bool, t: string)
    requires p + |t| <= |s| && t != "" && s[p] == t[0] && SpacedText(t)
    requires var r := Scan(s, p + |t|, dot);
      Scan(s, p + 1, dot) == Scanned(DigitsIn(t[1..]) + r.digits, r.frac + (if dot then |DigitsIn(t[1..])| else 0), r.end)
    ensures var r := Scan(s, p + |t|, dot);
      Scan(s, p, dot) == Scanned(DigitsIn(t) + r.digits, r.frac + (if dot then |DigitsIn(t)| else 0), r.end)
  {
    hide Scan, DigitsIn;
    var r, ds := Scan(s, p + |t|, dot).digits, DigitsIn(t[1..]);
    FrontDigits(t);
    ScanFront(s, p, dot);
    if t[0] == '_' {
      assert [] + ds == ds;
    } else {
      var d := DigitOf(t[0]);
      assert [d] + (ds + r) == ([d] + ds) + r;
    }
  }

  lemma FrontDigits(t: string)
    requires t != "" && SpacedText(t)
    ensures DigitsIn(t) == (if t[0] == '_' then [] else [DigitOf(t[0])]) + DigitsIn(t[1..])
  {}

  lemma ScanFront(s: string, p: nat, dot: bool)
    requires p < |s| && (IsDigit(s[p]) || s[p] == '_')
    ensures var r := Scan(s, p + 1, dot);
      Scan(s, p, dot) == if s[p] == '_' then r
                         else Scanned([DigitOf(s[p])] + r.digits, r.frac + (if dot then 1 else 0), r.end)
  {}

  // The scan ends at the mark of the exponent, or at the end.
  lemma ScanStops(s: string, p: nat, dot: bool)
    requires p <= |s| && (p == |s| || s[p] == 'e' || s[p] == 'E')
    ensures Scan(s, p, dot) == Scanned([], 0, p)
  {}

  lemma {:induction false} SkipsBlanks(n: nat, k: nat, t: string)
    requires k <= n && (t == "" || t[0] != ' ')
    ensures SkipSpaces(Blanks(n) + t, k) == n
    decreases n - k
  {
    if k < n {
      SkipsBlanks(n, k + 1, t);
    } else if t != "" {
      assert (Blanks(n) + t)[n] == t[0];
    }
  }

  lemma {:induction false} ReadsInt(pre: string, t: string, v: nat)
    requires DigitText(t)
    ensures SpacedText(t) && |DigitsIn(t)| == |t|
    ensures ReadInt(pre + t, |pre|, v) == v * Pow10(|t|) + Number(DigitsIn(t))
    decreases |t|
  {
    if t == "" {
      assert pre + t == pre;
    } else {
      var d := DigitOf(t[0]);
      assert pre + t == (pre + [t[0]]) + t[1..];
      ReadsInt(pre + [t[0]], t[1..], v * 10 + d);
      NumberAppends([d], DigitsIn(t[1..]));
      NumberNext([], d);
      NumberNone();
      assert [] + [d] == [d];
      FrontWeighs(v, d, Pow10(|t| - 1));
      TenTimes(|t|);
    }
  }

  lemma FrontWeighs(v: nat, d: nat, p: nat)
    ensures (v * 10 + d) * p == v * (10 * p) + d * p
  {
    MulAdd(v * 10, d, p);
    MulAssoc(v, 10, p);
  }

  lemma Joined(a: string, b: string, c: string, d: string, e: string)
    ensures a + (b + (c + (d + e))) == (a + b) + (c + (d + e))
    ensures a + (b + (c + (d + e))) == (((a + b) + c) + d) + e
  {}

  // What is written is read: the digits, how many follow the point, and where the rest begins.
  lemma ScansText(w: Spelling)
    requires Proper(w)
    ensures var s := TextOf(w);
      Scan(s, w.blanks + |w.sign|, false) == Scanned(DigitsIn(w.whole) + DigitsIn(w.frac), |DigitsIn(w.frac)|, |s| - |Tail(w)|)
  {
    hide DigitsIn, Scan, Blanks, Tail;
    var s, b := TextOf(w), Blanks(w.blanks);
    TailStarts(w);
    ScanPart(b + w.sign, w.whole, Fraction(w), false);
    if w.point {
      Joined(b, w.sign, w.whole, "." + w.frac, Tail(w));
      ScansFraction((b + w.sign) + w.whole, w.frac, Tail(w));
    } else {
      Joined(b, w.sign, w.whole, "", Tail(w));
      ScanStops(s, |b| + |w.sign| + |w.whole|, false);
      NoDigits();
    }
  }

  lemma TailStarts(w: Spelling)
    requires Proper(w)
    ensures Tail(w) == "" || Tail(w)[0] == 'e' || Tail(w)[0] == 'E'
  {}

  lemma ScansFraction(pre: string, t: string, post: string)
    requires SpacedText(t) && (post == "" || post[0] == 'e' || post[0] == 'E')
    ensures var s := (pre + ("." + t)) + post;
      Scan(s, |pre|, false) == Scanned(DigitsIn(t), |DigitsIn(t)|, |s| - |post|)
  {
    hide DigitsIn, Scan;
    var s := (pre + ("." + t)) + post;
    assert s == (pre + ".") + (t + post);
    ScanDot(s, |pre|);
    ScanPart(pre + ".", t, post, true);
    ScanStops(s, |pre| + 1 + |t|, true);
    assert DigitsIn(t) + [] == DigitsIn(t);
  }

  lemma NoDigits()
    ensures DigitsIn("") == []
  {}

  lemma ScanDot(s: string, p: nat)
    requires p < |s| && s[p] == '.'
    ensures Scan(s, p, false) == Scan(s, p + 1, true)
  {}

  lemma ExponentOf(w: Spelling)
    requires Proper(w)
    ensures var s := TextOf(w);
      ReadExponent(s, |s| - |Tail(w)|) == Signed(w.expSign == "-", Number(DigitsIn(w.exp)))
  {
    hide DigitsIn, Number, ReadExponent;
    var b := Blanks(w.blanks);
    Joined(b, w.sign, w.whole, if w.point then "." + w.frac else "", Tail(w));
    var pre := ((b + w.sign) + w.whole) + (if w.point then "." + w.frac else "");
    if w.mark == "" {
      NoDigits();
      NumberNone();
      NoExponent(pre + Tail(w));
    } else {
      ReadsExponent(pre, w.mark, w.expSign, w.exp);
    }
  }

  lemma NoExponent(s: string)
    ensures ReadExponent(s, |s|) == 0
  {}

  lemma ReadsExponent(pre: string, mark: string, sign: string, t: string)
    requires SignText(sign) && DigitText(t) && (mark == "e" || mark == "E")
    ensures SpacedText(t) && ReadExponent(pre + (mark + (sign + t)), |pre|) == Signed(sign == "-", Number(DigitsIn(t)))
  {
    hide DigitsIn, Number, ReadInt;
    var s := pre + (mark + (sign + t));
    assert s == (pre + mark + sign) + t;
    ReadsInt(pre + mark + sign, t, 0);
    assert s[|pre|] == mark[0];
    if sign != "" {
      assert s[|pre| + 1] == sign[0];
    } else if t != "" {
      assert s[|pre| + 1] == t[0];
    }
  }

  lemma StartOf(w: Spelling)
    requires Proper(w)
    ensures var s := TextOf(w);
      && SkipSpaces(s, 0) == w.blanks && AfterSign(s, w.blanks) == w.blanks + |w.sign| && (Minus?(s, w.blanks) <==> w.sign == "-")
  {
    var s, t := TextOf(w), w.sign + (w.whole + Fraction(w));
    SkipsBlanks(w.blanks, 0, t);
    if t != "" { assert s[w.blanks] == t[0]; }
  }

  lemma RoundsTo(l: Literal)
    ensures Denotes(RoundLiteral(l), l.neg, Number(l.digits), |l.digits|, l.exp)
  {
    hide Number, Pow10;
    var n, m, q := Number(l.digits), |l.digits|, Significand(l.digits);
    if m <= 34 {
      NumberBelow(l.digits);
      Pow10Mono(m, 34);
      RoundOne(n);
      assert q == n;
    } else {
      NumberBelow(l.digits);
      TopFits(n, m, q);
      assert Nearest(q, n, Pow10(m - 34));
    }
  }

  // Rounding to 34 digits does not pass 10^34.
  lemma TopFits(n: nat, m: nat, q: nat)
    requires m > 34 && n < Pow10(m) && Nearest(q, n, Pow10(m - 34))
    ensures q <= Pow10(34)
  {
    hide Pow10, Nearest;
    Pow10Add(34, m - 34);
    NearestAtMost(q, n, Pow10(m - 34), Pow10(34));
  }

  // Every literal is read as the number it spells.
  lemma ReadsAsSpelt(w: Spelling)
    requires Proper(w)
    ensures Spells(RoundLiteral(Read(TextOf(w))), w)
  {
    hide Number, DigitsIn, Scan, ReadExponent, SkipSpaces, Denotes, RoundLiteral, TextOf;
    StartOf(w);
    ScansText(w);
    ExponentOf(w);
    DigitsInAppends(w.whole, w.frac);
    RoundsTo(Read(TextOf(w)));
  }

  lemma AllSpellings(s: string)
    ensures forall w: Spelling | Proper(w) && TextOf(w) == s :: Spells(RoundLiteral(Read(s)), w)
  {
    hide Spells, Proper, TextOf, RoundLiteral, Read;
    forall w: Spelling | Proper(w) && TextOf(w) == s ensures Spells(RoundLiteral(Read(s)), w) {
      ReadsAsSpelt(w);
    }
  }

  // dec_parse_bounded: the literal read, rounded once at its 34th written digit.
  method Parse(s: string) returns (v: u128)
    ensures v == Pack(RoundLiteral(Read(s)))
    ensures exists d: Dec :: v == Pack(d) && forall w: Spelling | Proper(w) && TextOf(w) == s :: Spells(d, w)
  {
    hide Number, Reads, Kept, Shift, Pack, ReadExponent, Scan, SkipSpaces, Pow10, Spells, Proper, TextOf;
    AllSpellings(s);
    if |s| == 0 {
      EmptyLiteral();
      return Pack(ZERO);
    }
    var p := SkipBlanks(s);
    var sign := Minus?(s, p);
    if Signed?(s, p) { p := p + 1; }
    ghost var r := Scan(s, p, false);
    var g, q := ScanDigits(s, p);
    var coeff, exp := Finish(g, r.digits, r.frac);
    var e := ParseExponent(s, q);
    v := Pack(Dec(sign, coeff, exp + e));
  }

  lemma SkipOne(s: string, p: nat)
    requires p < |s| && s[p] == ' '
    ensures SkipSpaces(s, p) == SkipSpaces(s, p + 1)
  {}

  lemma SkipNone(s: string, p: nat)
    requires p <= |s| && (p == |s| || s[p] != ' ')
    ensures SkipSpaces(s, p) == p
  {}

  lemma EmptyLiteral()
    ensures RoundLiteral(Read("")) == ZERO
  {
    assert Number([]) == 0;
    RoundOne(0);
    Pow10Size();
  }

  method ParseExponent(s: string, from: nat) returns (e: int)
    requires from <= |s|
    ensures e == ReadExponent(s, from)
  {
    e := 0;
    var p := from;
    if p < |s| && (s[p] == 'e' || s[p] == 'E') {
      p := p + 1;
      var esign := if Minus?(s, p) then -1 else 1;
      if Signed?(s, p) { p := p + 1; }
      var ev := 0;
      ghost var start := p;
      while p < |s| && '0' <= s[p] <= '9'
        invariant start <= p <= |s| && ev >= 0
        invariant ReadInt(s, p, ev) == ReadInt(s, start, 0)
      {
        ev := ev * 10 + (s[p] as int - '0' as int);
        p := p + 1;
      }
      e := esign * ev;
    }
  }
}
