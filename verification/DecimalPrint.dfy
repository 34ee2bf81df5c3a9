// Printing a decimal (src/runtime/decimal.cpp:109-151), and reading the text back.

module DecimalPrint {
  import opened Powers
  import opened Decimal128
  import opened DecimalArith
  import opened DecimalText

  // ------------------------------------------------------------ the text of a decimal

  function Str(ds: seq<digit>): (s: string)
    ensures |s| == |ds|
  {
    seq(|ds|, i requires 0 <= i < |ds| => CharOf(ds[i]))
  }

  function Body(ds: seq<digit>, exp: int): string {
    if exp >= 0 then Str(ds) + Str(Zeros(exp))
    else if |ds| + exp <= 0 then "0." + Str(Zeros(-exp - |ds|)) + Str(ds)
    else Str(ds[..|ds| + exp]) + "." + Str(ds[|ds| + exp..])
  }

  predicate Minus(d: Dec) { d.sign && d.coeff != 0 }

  function Text(d: Dec): string {
    (if Minus(d) then "-" else "") + Body(DigitsOf(d.coeff), d.exp)
  }

  // ------------------------------------------------------------ the printer

  // The digits of coeff into digs, lowest first.
  method Digits(coeff: u128, digs: array<char>) returns (nd: nat)
    requires coeff < TWO113 && digs.Length == 40
    modifies digs
    ensures nd == NumDigits(coeff) <= 40
    ensures Holds(digs, DigitsOf(coeff))
  {
    hide Pow10, Number, NumDigits, DigitsOf;
    Pow10Size();
    DigitsAtMost(coeff, 39);
    ZeroDigit();
    nd := 0;
    if coeff == 0 {
      digs[nd] := '0';
      nd := 1;
      return;
    }
    var w := coeff;
    ghost var all := DigitsOf(coeff);
    while w > 0
      invariant 0 <= w && nd + (if w > 0 then |DigitsOf(w)| else 0) == |all|
      invariant w > 0 ==> DigitsOf(w) == all[..|all| - nd]
      invariant forall i :: 0 <= i < nd ==> digs[i] == CharOf(all[|all| - 1 - i])
    {
      LastDigit(w, all[..|all| - nd]);
      assert all[..|all| - nd][..|all| - nd - 1] == all[..|all| - nd - 1];
      digs[nd] := ('0' as int + w % 10) as char;
      nd := nd + 1;
      w := w / 10;
    }
  }

  lemma LastDigit(w: nat, ds: seq<digit>)
    requires w > 0 && ds == DigitsOf(w)
    ensures |ds| > 0 && ds[|ds| - 1] == w % 10
    ensures if w >= 10 then ds[..|ds| - 1] == DigitsOf(w / 10) else |ds| == 1
  {}

  lemma ZeroDigit()
    ensures DigitsOf(0) == [0]
  {}

  // The digits as they stand in digs, lowest first.
  ghost predicate Holds(digs: array<char>, ds: seq<digit>)
    reads digs
  {
    |ds| <= digs.Length && forall i :: 0 <= i < |ds| ==> digs[i] == CharOf(ds[|ds| - 1 - i])
  }

  // Digits hi - 1 down to lo of digs, at oi.
  method PutDigits(out: array<char>, oi: nat, digs: array<char>, hi: nat, lo: nat, ghost ds: seq<digit>)
    returns (o: nat)
    requires out != digs && lo <= hi <= |ds| && Holds(digs, ds)
    requires oi + (hi - lo) <= out.Length
    modifies out
    ensures o == oi + (hi - lo)
    ensures out[..o] == old(out[..oi]) + Str(ds[|ds| - hi..|ds| - lo])
  {
    ghost var n := |ds|;
    o := oi;
    var i := hi;
    while i > lo
      invariant lo <= i <= hi && o == oi + (hi - i)
      invariant out[..oi] == old(out[..oi])
      invariant forall q :: oi <= q < o ==> out[q] == CharOf(ds[n - hi + (q - oi)])
    {
      i := i - 1;
      out[o] := digs[i];
      o := o + 1;
    }
    var t := Str(ds[n - hi..n - lo]);
    assert out[oi..o] == t;
    assert out[..o] == out[..oi] + out[oi..o];
  }

  method PutZeros(out: array<char>, oi: nat, n: nat) returns (o: nat)
    requires oi + n <= out.Length
    modifies out
    ensures o == oi + n
    ensures out[..o] == old(out[..oi]) + Str(Zeros(n))
  {
    o := oi;
    for i := 0 to n
      invariant o == oi + i
      invariant out[..oi] == old(out[..oi])
      invariant forall q :: oi <= q < o ==> out[q] == '0'
    {
      out[o] := '0';
      o := o + 1;
    }
    assert out[oi..o] == Str(Zeros(n));
    assert out[..o] == out[..oi] + out[oi..o];
  }

  method Put(out: array<char>, oi: nat, c: char) returns (o: nat)
    requires oi < out.Length
    modifies out
    ensures o == oi + 1
    ensures out[..o] == old(out[..oi]) + [c]
  {
    out[oi] := c;
    o := oi + 1;
  }

  // No fraction: zeros after the digits.
  method PutWhole(out: array<char>, oi: nat, digs: array<char>, nd: nat, exp: nat, ghost ds: seq<digit>)
    returns (o: nat)
    requires out != digs && nd == |ds| && Holds(digs, ds)
    requires oi + |Body(ds, exp)| <= out.Length
    modifies out
    ensures o == oi + |Body(ds, exp)|
    ensures out[..o] == old(out[..oi]) + Body(ds, exp)
  {
    hide Str, Zeros, CharOf;
    o := PutDigits(out, oi, digs, nd, 0, ds);
    o := PutZeros(out, o, exp);
    assert ds[0..nd] == ds;
    ghost var was := old(out[..oi]);
    assert was + Str(ds) + Str(Zeros(exp)) == was + Body(ds, exp);
  }

  lemma Parts(s: string, z: string, t: string)
    ensures s + ['0'] + ['.'] + z + t == s + ("0." + z + t)
  {}

  // All digits behind the dot.
  method PutSmall(out: array<char>, oi: nat, digs: array<char>, nd: nat, zeros: nat, ghost ds: seq<digit>)
    returns (o: nat)
    requires out != digs && nd == |ds| && nd > 0 && Holds(digs, ds)
    requires oi + |Body(ds, 0 - zeros - nd)| <= out.Length
    modifies out
    ensures o == oi + |Body(ds, 0 - zeros - nd)|
    ensures out[..o] == old(out[..oi]) + Body(ds, 0 - zeros - nd)
  {
    hide Str, Zeros, CharOf;
    o := Put(out, oi, '0');
    o := Put(out, o, '.');
    o := PutZeros(out, o, zeros);
    o := PutDigits(out, o, digs, nd, 0, ds);
    assert ds[0..nd] == ds;
    Parts(old(out[..oi]), Str(Zeros(zeros)), Str(ds));
  }

  // The dot after point digits.
  method PutSplit(out: array<char>, oi: nat, digs: array<char>, nd: nat, point: nat, ghost ds: seq<digit>)
    returns (o: nat)
    requires out != digs && nd == |ds| && 0 < point < nd && Holds(digs, ds)
    requires oi + |Body(ds, point - nd)| <= out.Length
    modifies out
    ensures o == oi + |Body(ds, point - nd)|
    ensures out[..o] == old(out[..oi]) + Body(ds, point - nd)
  {
    hide Str, Zeros, CharOf;
    o := PutDigits(out, oi, digs, nd, nd - point, ds);
    o := Put(out, o, '.');
    o := PutDigits(out, o, digs, nd - point, 0, ds);
    assert ds[0..point] == ds[..point] && ds[point..nd] == ds[point..];
    ghost var was := old(out[..oi]);
    assert was + Str(ds[..point]) + ['.'] + Str(ds[point..]) == was + Body(ds, point - nd);
  }

  method PutBody(out: array<char>, oi: nat, digs: array<char>, nd: nat, exp: int, ghost ds: seq<digit>)
    returns (o: nat)
    requires out != digs && nd == |ds| && nd > 0 && Holds(digs, ds)
    requires oi + |Body(ds, exp)| <= out.Length
    modifies out
    ensures o == oi + |Body(ds, exp)|
    ensures out[..o] == old(out[..oi]) + Body(ds, exp)
  {
    hide Body, Holds;
    if exp >= 0 {
      o := PutWhole(out, oi, digs, nd, exp, ds);
    } else {
      var point := nd + exp;
      if point <= 0 {
        o := PutSmall(out, oi, digs, nd, -point, ds);
      } else {
        o := PutSplit(out, oi, digs, nd, point, ds);
      }
    }
  }

  // kyte_decimal_to_string. The text and its final 0 have to fit the buffer.
  method ToString(v: u128) returns (text: string)
    requires Decode(v).Finite? ==> |Text(Decode(v).d)| < 80
    ensures Decode(v).Finite? ==> text == Text(Decode(v).d)
    ensures Decode(v).Special? ==> text == "0"
  {
    hide Decode, Body, NumDigits;
    var d := Decode(v);
    if d.Special? { return "0"; }
    var c := d.d;
    var digs := new char[40];
    var nd := Digits(c.coeff, digs);
    var out := new char[80];
    var oi := 0;
    ZeroDigits(c.coeff);
    if c.sign && !(nd == 1 && digs[0] == '0') {
      oi := Put(out, oi, '-');
    }
    oi := PutBody(out, oi, digs, nd, c.exp, DigitsOf(c.coeff));
    text := out[..oi];
  }

  lemma ZeroDigits(v: nat)
    ensures v == 0 <==> NumDigits(v) == 1 && CharOf(DigitsOf(v)[0]) == '0'
  {}

  // ------------------------------------------------------------ reading it back

  // The digits the text writes.
  function Written(ds: seq<digit>, exp: int): seq<digit> {
    if exp >= 0 then ds + Zeros(exp)
    else if |ds| + exp <= 0 then [0] + Zeros(-exp - |ds|) + ds
    else ds
  }

  lemma {:induction false} ScanStr(s: string, p: nat, ds: seq<digit>, dot: bool)
    requires p + |ds| <= |s| && s[p..p + |ds|] == Str(ds)
    ensures var r := Scan(s, p + |ds|, dot);
      Scan(s, p, dot) == Scanned(ds + r.digits, r.frac + (if dot then |ds| else 0), r.end)
    decreases |ds|
  {
    hide Scan, CharOf, DigitOf, IsDigit;
    var r := Scan(s, p + |ds|, dot);
    if ds == [] {
      assert ds + r.digits == r.digits;
    } else {
      var t := ds[1..];
      assert s[p] == s[p..p + |ds|][0] == CharOf(ds[0]);
      assert s[p + 1..p + 1 + |t|] == s[p..p + |ds|][1..] == Str(t);
      ScanStr(s, p + 1, t, dot);
      DigitChar(ds[0]);
      ScanOne(s, p, dot);
      assert [ds[0]] + (t + r.digits) == ds + r.digits;
    }
  }

  lemma DigitChar(d: digit)
    ensures IsDigit(CharOf(d)) && DigitOf(CharOf(d)) == d
  {}

  lemma ScanOne(s: string, p: nat, dot: bool)
    requires p < |s| && IsDigit(s[p])
    ensures var r := Scan(s, p + 1, dot);
      Scan(s, p, dot) == Scanned([DigitOf(s[p])] + r.digits, r.frac + (if dot then 1 else 0), r.end)
  {}

  lemma ScanEnd(s: string, dot: bool)
    ensures Scan(s, |s|, dot) == Scanned([], 0, |s|)
  {}

  lemma ScanDot(s: string, p: nat)
    requires p < |s| && s[p] == '.'
    ensures Scan(s, p, false) == Scan(s, p + 1, true)
  {}

  // Digits, a dot, digits, and no more.
  lemma ScanParts(s: string, p: nat, a: seq<digit>, b: seq<digit>)
    requires p <= |s| && s[p..] == Str(a) + "." + Str(b)
    ensures Scan(s, p, false) == Scanned(a + b, |b|, |s|)
  {
    hide Scan, Str;
    var t := s[p..];
    var q := p + |a|;
    assert s[p..q] == t[..|a|] == Str(a);
    ScanStr(s, p, a, false);
    assert s[q] == t[|a|] == '.';
    ScanDot(s, q);
    assert s[q + 1..q + 1 + |b|] == t[|a| + 1..] == Str(b);
    ScanStr(s, q + 1, b, true);
    ScanEnd(s, true);
    assert b + [] == b;
  }

  lemma ScanWhole(s: string, p: nat, a: seq<digit>)
    requires p <= |s| && s[p..] == Str(a)
    ensures Scan(s, p, false) == Scanned(a, 0, |s|)
  {
    hide Scan, Str;
    assert s[p..p + |a|] == s[p..];
    ScanStr(s, p, a, false);
    ScanEnd(s, false);
    assert a + [] == a;
  }

  lemma StrAppends(a: seq<digit>, b: seq<digit>)
    ensures Str(a + b) == Str(a) + Str(b)
  {}

  lemma ScanBody(s: string, p: nat, ds: seq<digit>, exp: int)
    requires p <= |s| && s[p..] == Body(ds, exp)
    ensures Scan(s, p, false) == Scanned(Written(ds, exp), if exp >= 0 then 0 else -exp, |s|)
  {
    hide Scan, Str, Zeros;
    if exp >= 0 {
      StrAppends(ds, Zeros(exp));
      ScanWhole(s, p, ds + Zeros(exp));
    } else if |ds| + exp <= 0 {
      var z := Zeros(-exp - |ds|);
      StrAppends(z, ds);
      StrZero();
      assert s[p..] == Str([0]) + "." + Str(z + ds);
      ScanParts(s, p, [0], z + ds);
      assert [0] + (z + ds) == [0] + z + ds;
    } else {
      ScanParts(s, p, ds[..|ds| + exp], ds[|ds| + exp..]);
      assert ds[..|ds| + exp] + ds[|ds| + exp..] == ds;
    }
  }

  lemma StrZero()
    ensures Str([0]) == "0"
  {}

  lemma BodyStarts(ds: seq<digit>, exp: int)
    requires ds != []
    ensures Body(ds, exp) != "" && IsDigit(Body(ds, exp)[0])
  {}

  lemma ReadText(d: Dec)
    ensures Read(Text(d)) == Literal(Minus(d), Written(DigitsOf(d.coeff), d.exp), if d.exp >= 0 then 0 else d.exp)
  {
    hide Scan, Body, DigitsOf, Written, NumDigits;
    var s := Text(d);
    var ds := DigitsOf(d.coeff);
    BodyStarts(ds, d.exp);
    var p := if Minus(d) then 1 else 0;
    assert s[p..] == Body(ds, d.exp);
    assert s[0] == '-' || IsDigit(s[0]);
    SkipNone(s, 0);
    ScanBody(s, p, ds, d.exp);
  }

  lemma NumberWritten(v: nat, exp: int)
    ensures Number(Written(DigitsOf(v), exp)) == (if exp >= 0 then v * Pow10(exp) else v)
  {
    hide Number, DigitsOf, NumDigits, Zeros, Pow10;
    var ds := DigitsOf(v);
    NumberOfDigits(v);
    if exp >= 0 {
      NumberAppends(ds, Zeros(exp));
      NumberZeros(exp);
    } else if |ds| + exp <= 0 {
      var z := Zeros(-exp - |ds|);
      NumberAppends([0] + z, ds);
      NumberAppends([0], z);
      NumberZeros(|z|);
      assert Number([0]) == 0 by { OneZero(); }
    }
  }

  lemma OneZero()
    ensures Number([0]) == 0
  {
    assert [0][..0] == [];
  }

  lemma {:induction false} DigitsOfStr(ds: seq<digit>)
    ensures DigitText(Str(ds)) && SpacedText(Str(ds)) && DigitsIn(Str(ds)) == ds
  {
    hide DigitsIn;
    if ds == [] {
      NoDigits();
    } else {
      DigitsOfStr(ds[1..]);
      assert Str(ds)[1..] == Str(ds[1..]);
      FrontDigits(Str(ds));
      DigitChar(ds[0]);
      assert [ds[0]] + ds[1..] == ds;
    }
  }

  // The text in numbers: a sign for what is below zero, and the digits of exactly the value.
  lemma TextIs(d: Dec) returns (whole: string, frac: string)
    ensures DigitText(whole) && DigitText(frac) && SpacedText(whole) && SpacedText(whole + frac) && whole != ""
    ensures Text(d) == (if d.sign && d.coeff != 0 then "-" else "") + (if d.exp < 0 then (whole + ".") + frac else whole)
    ensures d.exp >= 0 ==> frac == "" && Number(DigitsIn(whole)) == d.coeff * Pow10(d.exp)
    ensures d.exp < 0 ==> |frac| == -d.exp && Number(DigitsIn(whole + frac)) == d.coeff
  {
    hide Number, DigitsOf, NumDigits, Pow10, DigitsIn, Str, Zeros, DigitText, SpacedText;
    var ds := DigitsOf(d.coeff);
    var all := Written(ds, d.exp);
    var n := if d.exp >= 0 then |all| else |all| + d.exp;
    NumberWritten(d.coeff, d.exp);
    BodyIs(ds, d.exp);
    whole, frac := Str(all[..n]), Str(all[n..]);
    DigitsOfStr(all[..n]);
    DigitsOfStr(all[n..]);
    DigitsOfStr(all);
    StrAppends(all[..n], all[n..]);
    assert all[..n] + all[n..] == all;
    if d.exp >= 0 { assert all[..n] == all; }
  }

  lemma BodyIs(ds: seq<digit>, exp: int)
    requires ds != []
    ensures var all := Written(ds, exp);
      && |all| > -exp
      && (exp >= 0 ==> Body(ds, exp) == Str(all[..|all|]))
      && (exp < 0 ==> Body(ds, exp) == (Str(all[..|all| + exp]) + ".") + Str(all[|all| + exp..]))
  {
    hide Str, Zeros;
    var all := Written(ds, exp);
    assert all[..|all|] == all;
    if exp >= 0 {
      StrAppends(ds, Zeros(exp));
    } else if |ds| + exp <= 0 {
      var z := Zeros(-exp - |ds|);
      StrAppends(z, ds);
      StrZero();
      assert all == [0] + (z + ds);
      assert all[..1] == [0] && all[1..] == z + ds;
    }
  }

  predicate SameValue(x: Dec, y: Dec) { Difference(x, y) == 0 }

  // When a printed decimal is read back as the same value.
  predicate Survives(d: Dec) {
    d.exp >= -33 || d.coeff % Pow10(-d.exp - 33) == 0
  }

  lemma WrittenLength(d: Dec)
    requires Canonical(d)
    ensures var w := |Written(DigitsOf(d.coeff), d.exp)|;
      && (d.exp >= 0 ==> w == NumDigits(d.coeff) + d.exp && Past(w) <= d.exp)
      && (-33 <= d.exp < 0 ==> Past(w) == 0)
      && (d.exp < -33 ==> Past(w) == -d.exp - 33)
  {
    DigitsAtMost(d.coeff, 34);
  }

  lemma KeptIs(ds: seq<digit>, q: nat)
    requires Significand(ds) == q < Pow10(34)
    ensures Kept(ds) == q && Shift(ds) == Past(|ds|)
  {}

  // The zeros an exponent writes past the 34th digit are dropped exactly.
  lemma WholeText(d: Dec)
    requires Canonical(d) && d.exp >= 0
    ensures var ds := Written(DigitsOf(d.coeff), d.exp);
      Past(|ds|) <= d.exp && Kept(ds) == d.coeff * Pow10(d.exp - Past(|ds|)) && Shift(ds) == Past(|ds|)
  {
    hide Number, DigitsOf, NumDigits, Written, Pow10, Rounded;
    var ds := Written(DigitsOf(d.coeff), d.exp);
    var k := Past(|ds|);
    WrittenLength(d);
    NumberWritten(d.coeff, d.exp);
    Pow10Add(d.exp - k, k);
    var q := d.coeff * Pow10(d.exp - k);
    MulAssoc(d.coeff, Pow10(d.exp - k), Pow10(k));
    NearestExact(q, Pow10(k));
    RoundedIs(q, Number(ds), Pow10(k));
    DigitsBound(d.coeff);
    var n := NumDigits(d.coeff);
    MulStrict(d.coeff, Pow10(n), Pow10(d.exp - k));
    Pow10Add(n, d.exp - k);
    Pow10Mono(n + (d.exp - k), 34);
    KeptIs(ds, q);
  }

  // A fraction is rounded at its 34th written digit, leading zeros counted.
  lemma FractionText(d: Dec)
    requires Canonical(d) && d.exp < 0
    ensures var ds := Written(DigitsOf(d.coeff), d.exp);
      Kept(ds) == Rounded(d.coeff, Pow10(Past(|ds|))) && Shift(ds) == Past(|ds|)
  {
    hide Number, DigitsOf, NumDigits, Written, Pow10, Rounded;
    var ds := Written(DigitsOf(d.coeff), d.exp);
    NumberWritten(d.coeff, d.exp);
    StillBelow(d.coeff, Past(|ds|));
    KeptIs(ds, Rounded(d.coeff, Pow10(Past(|ds|))));
  }

  lemma StillBelow(v: nat, k: nat)
    requires v < Pow10(34)
    ensures Rounded(v, Pow10(k)) < Pow10(34)
  {
    hide Rounded, Nearest, Pow10;
    if k == 0 {
      RoundOne(v);
    } else {
      TenTimes(k);
      TenTimes(34);
      MulMono(10, Pow10(k), Pow10(33));
      NearestAtMost(Rounded(v, Pow10(k)), v, Pow10(k), Pow10(33));
    }
  }

  // Two decimals with the sign of d, one coefficient scaled to the other.
  lemma SameUnits(d: Dec, r: Dec)
    requires r.sign == Minus(d) && (d.coeff == 0 ==> r.coeff == 0)
    requires d.exp <= r.exp
    ensures SameValue(r, d) <==> r.coeff * Pow10(r.exp - d.exp) == d.coeff
  {
    hide Pow10;
    UnitsSign(r, d.exp);
    UnitsSign(d, d.exp);
    OneUnit(d.coeff);
  }

  lemma CoarseUnits(d: Dec, r: Dec)
    requires r.sign == Minus(d) && (d.coeff == 0 ==> r.coeff == 0)
    requires r.exp <= d.exp && r.coeff == d.coeff * Pow10(d.exp - r.exp)
    ensures SameValue(r, d)
  {
    hide Pow10;
    UnitsSign(r, r.exp);
    UnitsSign(d, r.exp);
    OneUnit(r.coeff);
  }

  lemma RoundedExactly(v: nat, k: nat)
    ensures Rounded(v, Pow10(k)) * Pow10(k) == v <==> v % Pow10(k) == 0
  {
    hide Pow10, Rounded, Nearest;
    var p := Pow10(k);
    if v % p == 0 {
      DivMod(v, p);
      NearestExact(v / p, p);
      RoundedIs(v / p, v, p);
    } else if Rounded(v, p) * p == v {
      DivModUnique(v, p, Rounded(v, p), 0);
      assert false;
    }
  }

  lemma NoneRounded(k: nat)
    ensures Rounded(0, Pow10(k)) == 0
  {
    hide Rounded;
    RoundedIs(0, 0, Pow10(k));
  }

  // Reading a printed decimal gives its value back exactly when no nonzero digit stands below
  // the 34th written one.
  lemma TextRoundTrip(d: Dec)
    requires Canonical(d)
    ensures SameValue(RoundLiteral(Read(Text(d))), d) <==> Survives(d)
  {
    hide Number, DigitsOf, NumDigits, Written, Pow10, Rounded, Kept, Shift, Text, Read, SameValue, Minus, Significand;
    ReadText(d);
    WrittenLength(d);
    var ds := Written(DigitsOf(d.coeff), d.exp);
    var r := RoundLiteral(Read(Text(d)));
    if d.exp >= 0 {
      WholeText(d);
      ZeroTimes(d.coeff, Pow10(d.exp - Past(|ds|)));
      CoarseUnits(d, r);
    } else {
      FractionText(d);
      NoneRounded(Past(|ds|));
      SameUnits(d, r);
      RoundedExactly(d.coeff, Past(|ds|));
      if d.exp >= -33 { RoundOne(d.coeff); OneUnit(d.coeff); }
    }
  }

  // The smallest that is lost: a digit in the 34th decimal place is the 35th written.
  lemma TinyIsLost()
    ensures var d := Dec(false, 1, -34); Canonical(d) && !SameValue(RoundLiteral(Read(Text(d))), d)
  {
    hide Number, DigitsOf, Written, Rounded, Kept, Shift, Text, Read, SameValue, Minus, Significand;
    var d := Dec(false, 1, -34);
    Pow10Mono(1, 34);
    assert Pow10(1) == 10;
    TextRoundTrip(d);
  }

  lemma ZeroTimes(n: nat, p: nat)
    ensures n == 0 ==> n * p == 0
  {}

  lemma LiteralFits(d: Dec)
    requires Canonical(d)
    ensures Canonical(RoundLiteral(Read(Text(d))))
  {
    hide Number, DigitsOf, NumDigits, Written, Pow10, Rounded, Text, Read;
    SignificandBound(Read(Text(d)).digits);
    Pow10Mono(33, 34);
  }

  // The exponent read is the one printed, as far as digits were kept.
  lemma LiteralExp(d: Dec)
    requires Canonical(d) && InRange(d.exp)
    ensures var r := RoundLiteral(Read(Text(d))); d.exp < 0 ==> d.exp <= r.exp <= 0
    ensures var r := RoundLiteral(Read(Text(d))); d.exp >= 0 ==> 0 <= r.exp <= d.exp
  {
    hide Number, DigitsOf, NumDigits, Written, Pow10, Rounded, Kept, Shift, Text, Read, Significand;
    ReadText(d);
    WrittenLength(d);
    if d.exp >= 0 { WholeText(d); } else { FractionText(d); }
  }

  lemma SignificandBound(ds: seq<digit>)
    ensures Significand(ds) <= Pow10(34)
  {
    hide Number, Rounded, Nearest, Pow10;
    var k := Past(|ds|);
    NumberBelow(ds);
    Pow10Add(34, k);
    Pow10Mono(|ds|, 34 + k);
    NearestAtMost(Significand(ds), Number(ds), Pow10(k), Pow10(34));
  }

  // On packed words: printing one and parsing the text gives a word of equal value exactly when
  // no nonzero digit stands below the 34th written one.
  method PrintAndParse(v: u128) returns (w: u128)
    requires Decode(v).Finite? && Canonical(Decode(v).d) && |Text(Decode(v).d)| < 80
    ensures Decode(w).Finite?
    ensures SameValue(Decode(w).d, Decode(v).d) <==> Survives(Decode(v).d)
  {
    hide Decode, Pack, Text, Read, SameValue, Survives, RoundLiteral;
    ghost var d := Decode(v).d;
    var text := ToString(v);
    w := Parse(text);
    TextRoundTrip(d);
    LiteralFits(d);
    LiteralExp(d);
    Coefficients(RoundLiteral(Read(Text(d))));
    DecodePack(RoundLiteral(Read(Text(d))));
  }
}
