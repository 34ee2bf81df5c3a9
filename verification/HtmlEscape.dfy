// Escaping HTML (src/runtime/core.cpp:834-869): the escaped text fills exactly the length worked
// out beforehand, holds no bare metacharacter, and gives the input back when it is unescaped.

module HtmlEscape {
  import opened HtmlScan

  type text = seq<bv8>

  const AMP: text := [38, 97, 109, 112, 59]
  const LT: text := [38, 108, 116, 59]
  const GT: text := [38, 103, 116, 59]
  const QUOT: text := [38, 113, 117, 111, 116, 59]
  const APOS: text := [38, 35, 51, 57, 59]

  // What stands for one byte.
  function Entity(c: bv8): (e: text)
    ensures |e| > 0
  {
    if c == 38 then AMP else if c == 60 then LT else if c == 62 then GT
    else if c == 34 then QUOT else if c == 39 then APOS else [c]
  }

  function Escaped(s: text): text {
    if s == [] then [] else Escaped(s[..|s| - 1]) + Entity(s[|s| - 1])
  }

  predicate Begins(t: text, e: text) { |e| <= |t| && t[..|e|] == e }

  // Reading escaped text: each of the five entities is one byte, anything else stands for itself.
  function Unescaped(t: text): text
    decreases |t|
  {
    if t == [] then []
    else if Begins(t, AMP) then [38] + Unescaped(t[5..])
    else if Begins(t, LT) then [60] + Unescaped(t[4..])
    else if Begins(t, GT) then [62] + Unescaped(t[4..])
    else if Begins(t, QUOT) then [34] + Unescaped(t[6..])
    else if Begins(t, APOS) then [39] + Unescaped(t[5..])
    else [t[0]] + Unescaped(t[1..])
  }

  lemma Starts(e: text, t: text)
    requires |e| >= 2
    ensures Begins(e + t, e) && (e + t)[|e|..] == t && (e + t)[1] == e[1]
  {}

  lemma AmpRead(t: text)
    ensures Unescaped(AMP + t) == [38] + Unescaped(t)
  {
    Starts(AMP, t);
  }

  lemma LtRead(t: text)
    ensures Unescaped(LT + t) == [60] + Unescaped(t)
  {
    Starts(LT, t);
  }

  lemma GtRead(t: text)
    ensures Unescaped(GT + t) == [62] + Unescaped(t)
  {
    Starts(GT, t);
  }

  lemma QuotRead(t: text)
    ensures Unescaped(QUOT + t) == [34] + Unescaped(t)
  {
    Starts(QUOT, t);
  }

  lemma AposRead(t: text)
    ensures Unescaped(APOS + t) == [39] + Unescaped(t)
  {
    Starts(APOS, t);
  }

  lemma PlainRead(c: bv8, t: text)
    requires !Meta(c)
    ensures Unescaped([c] + t) == [c] + Unescaped(t)
  {
    var u := [c] + t;
    assert u[0] == c && u[1..] == t;
    assert !Begins(u, AMP) && !Begins(u, LT) && !Begins(u, GT) && !Begins(u, QUOT) && !Begins(u, APOS);
  }

  lemma EntityRead(c: bv8, t: text)
    ensures Unescaped(Entity(c) + t) == [c] + Unescaped(t)
  {
    hide Unescaped;
    if c == 38 {
      AmpRead(t);
    } else if c == 60 {
      LtRead(t);
    } else if c == 62 {
      GtRead(t);
    } else if c == 34 {
      QuotRead(t);
    } else if c == 39 {
      AposRead(t);
    } else {
      PlainRead(c, t);
    }
  }

  lemma {:induction false} EscapedFrom(s: text)
    requires s != []
    ensures Escaped(s) == Entity(s[0]) + Escaped(s[1..])
  {
    hide Entity;
    if |s| > 1 {
      var i := s[..|s| - 1];
      EscapedFrom(i);
      assert i[1..] == s[1..][..|s| - 2];
      assert Escaped(s[1..]) == Escaped(i[1..]) + Entity(s[|s| - 1]);
    } else {
      assert s[..0] == [] && s[1..] == [];
    }
  }

  // Escaping loses nothing.
  lemma {:induction false} RoundTrip(s: text)
    ensures Unescaped(Escaped(s)) == s
  {
    hide Entity, Unescaped;
    if s == [] {
      NothingRead();
    } else {
      EscapedFrom(s);
      EntityRead(s[0], Escaped(s[1..]));
      RoundTrip(s[1..]);
    }
  }

  lemma NothingRead()
    ensures Unescaped([]) == [] && Escaped([]) == []
  {}

  // One of the five entities begins at i.
  predicate EntityAt(t: text, i: nat)
    requires i <= |t|
  {
    var u := t[i..];
    Begins(u, AMP) || Begins(u, LT) || Begins(u, GT) || Begins(u, QUOT) || Begins(u, APOS)
  }

  lemma StillBegins(t: text, u: text, e: text, i: nat)
    requires i <= |t| && Begins(t[i..], e)
    ensures Begins((t + u)[i..], e)
  {
    assert (t + u)[i..] == t[i..] + u;
  }

  lemma StillEntity(t: text, u: text, i: nat)
    requires i <= |t| && EntityAt(t, i)
    ensures EntityAt(t + u, i)
  {
    hide Begins;
    if Begins(t[i..], AMP) { StillBegins(t, u, AMP, i); }
    if Begins(t[i..], LT) { StillBegins(t, u, LT, i); }
    if Begins(t[i..], GT) { StillBegins(t, u, GT, i); }
    if Begins(t[i..], QUOT) { StillBegins(t, u, QUOT, i); }
    if Begins(t[i..], APOS) { StillBegins(t, u, APOS, i); }
  }

  // Within what stands for one byte only the & that begins an entity is a metacharacter.
  lemma OneEntity(t: text, c: bv8, i: nat)
    requires i < |Entity(c)| && Meta(Entity(c)[i])
    ensures i == 0 && EntityAt(t + Entity(c), |t|)
  {
    assert (t + Entity(c))[|t|..] == Entity(c);
  }

  // The metacharacters left are those that begin an entity.
  lemma {:induction false} NoneLeft(s: text)
    ensures forall i :: 0 <= i < |Escaped(s)| && Meta(Escaped(s)[i]) ==> EntityAt(Escaped(s), i)
  {
    hide Meta, Entity, EntityAt;
    if s != [] {
      var p, c := Escaped(s[..|s| - 1]), s[|s| - 1];
      NoneLeft(s[..|s| - 1]);
      forall i | 0 <= i < |Escaped(s)| && Meta(Escaped(s)[i]) ensures EntityAt(Escaped(s), i) {
        if i < |p| { StillEntity(p, Entity(c), i); } else { OneEntity(p, c, i - |p|); }
      }
    }
  }

  lemma {:induction false} NothingToDo(s: text)
    requires forall i :: 0 <= i < |s| ==> !Meta(s[i])
    ensures Escaped(s) == s
  {
    if s != [] { NothingToDo(s[..|s| - 1]); }
  }

  lemma EscapedNext(s: text, i: nat)
    requires i < |s|
    ensures Escaped(s[..i + 1]) == Escaped(s[..i]) + Entity(s[i])
  {
    assert s[..i + 1][..i] == s[..i];
  }

  lemma {:induction false} Grows(s: text, i: nat)
    requires i <= |s|
    ensures |Escaped(s[..i])| <= |Escaped(s)|
    decreases |s| - i
  {
    hide Entity;
    if i < |s| {
      EscapedNext(s, i);
      Grows(s, i + 1);
    } else {
      assert s[..i] == s;
    }
  }

  // Spelt out byte by byte: &amp; &lt; &gt; &quot; &#39; for the five, and any other as it is.
  lemma PieceIs(s: text, i: nat)
    requires i < |s|
    ensures var a, b, c := |Escaped(s[..i])|, |Escaped(s[..i + 1])|, s[i];
      && a <= b <= |Escaped(s)|
      && Escaped(s)[a..b] ==
         if c == 38 then [38, 97, 109, 112, 59]
         else if c == 60 then [38, 108, 116, 59]
         else if c == 62 then [38, 103, 116, 59]
         else if c == 34 then [38, 113, 117, 111, 116, 59]
         else if c == 39 then [38, 35, 51, 57, 59]
         else [c]
  {
    hide Escaped;
    EscapedNext(s, i);
    Grows(s, i + 1);
    EscapedPrefix(s, i + 1);
  }

  lemma AllPieces(s: text, r: text)
    requires r == Escaped(s)
    ensures forall i: nat | i < |s| ::
      var a, b, c := |Escaped(s[..i])|, |Escaped(s[..i + 1])|, s[i];
      && a <= b <= |r|
      && r[a..b] ==
         if c == 38 then [38, 97, 109, 112, 59]
         else if c == 60 then [38, 108, 116, 59]
         else if c == 62 then [38, 103, 116, 59]
         else if c == 34 then [38, 113, 117, 111, 116, 59]
         else if c == 39 then [38, 35, 51, 57, 59]
         else [c]
  {
    hide Escaped;
    forall i: nat | i < |s| { PieceIs(s, i); }
  }

  lemma {:induction false} EscapedPrefix(s: text, i: nat)
    requires i <= |s|
    ensures |Escaped(s[..i])| <= |Escaped(s)| && Escaped(s)[..|Escaped(s[..i])|] == Escaped(s[..i])
    decreases |s| - i
  {
    hide Entity;
    if i < |s| {
      EscapedNext(s, i);
      EscapedPrefix(s, i + 1);
    } else {
      assert s[..i] == s;
    }
  }

  method EscapedLength(s: text) returns (n: nat)
    ensures n == |Escaped(s)|
  {
    n := 0;
    for i := 0 to |s|
      invariant n == |Escaped(s[..i])|
    {
      EscapedNext(s, i);
      var c := s[i];
      n := n + (if c == 38 then 5 else if c == 60 then 4 else if c == 62 then 4 else if c == 34 then 6
                else if c == 39 then 5 else 1);
    }
    assert s[..|s|] == s;
  }

  // std::memcpy(o + w, e, |e|).
  method Copy(o: array<bv8>, w: nat, e: text)
    requires w + |e| <= o.Length
    modifies o
    ensures o[..w + |e|] == old(o[..w]) + e
  {
    for k := 0 to |e|
      invariant o[..w] == old(o[..w])
      invariant o[w..w + k] == e[..k]
    {
      o[w + k] := e[k];
    }
    assert o[..w + |e|] == o[..w] + o[w..w + |e|];
    assert e[..|e|] == e;
  }

  // kyte_html_escape. The input comes back as it is when there is nothing to escape, and also
  // when no buffer could be had; the scan's index may overflow.
  method Escape(s: text, room: bool) returns (r: text, overflow: bool)
    requires |s| <= INT_MAX
    ensures overflow <==> Overflows(s, 0)
    ensures !overflow && (room || Escaped(s) == s) ==> r == Escaped(s)
    ensures !overflow && !room ==> r == s
    ensures !overflow && room ==> forall i: nat | i < |s| ::
      var a, b, c := |Escaped(s[..i])|, |Escaped(s[..i + 1])|, s[i];
      && a <= b <= |r|
      && r[a..b] ==
         if c == 38 then [38, 97, 109, 112, 59]
         else if c == 60 then [38, 108, 116, 59]
         else if c == 62 then [38, 103, 116, 59]
         else if c == 34 then [38, 113, 117, 111, 116, 59]
         else if c == 39 then [38, 35, 51, 57, 59]
         else [c]
  {
    hide Entity, Meta, Overflows, Escaped;
    var first;
    first, overflow := FindMeta(s, 0);
    r := s;
    if overflow { return; }
    if first >= |s| {
      NothingToDo(s);
      AllPieces(s, r);
      return;
    }
    var n := EscapedLength(s);
    if !room { return; }
    r := Fill(s, n);
    AllPieces(s, r);
  }

  // The second pass, into a buffer of the length worked out.
  method Fill(s: text, n: nat) returns (r: text)
    requires n == |Escaped(s)|
    ensures r == Escaped(s)
  {
    hide Entity;
    var o := new bv8[n];
    var w := 0;
    for i := 0 to |s|
      invariant w == |Escaped(s[..i])| <= n
      invariant o[..w] == Escaped(s[..i])
    {
      EscapedNext(s, i);
      Grows(s, i + 1);
      Copy(o, w, Entity(s[i]));
      w := w + |Entity(s[i])|;
    }
    assert s[..|s|] == s;
    assert o[..w] == o[..];
    r := o[..];
  }
}
