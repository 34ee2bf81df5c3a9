// Prefix codes as lists of bit strings, and the Kraft inequality: what a code word leaves
// of the code space is lost to all others.

module PrefixCodes {
  import opened Powers
  import opened HuffmanCost

  // Neither word begins with the other.
  predicate Apart(v: seq<bool>, w: seq<bool>) {
    !(v <= w) && !(w <= v)
  }

  predicate NoPrefixes(words: seq<seq<bool>>) {
    words == [] || ((forall j | 1 <= j < |words| :: Apart(words[0], words[j])) && NoPrefixes(words[1..]))
  }

  predicate AtMost(words: seq<seq<bool>>, m: nat) {
    forall i | 0 <= i < |words| :: |words[i]| <= m
  }

  // The room the words take, in units of 2^-m.
  function WordRoom(words: seq<seq<bool>>, m: nat): nat {
    if words == [] then 0 else (if |words[0]| <= m then Pow2(m - |words[0]|) else 0) + WordRoom(words[1..], m)
  }

  // The words that begin with b, without it.
  function Tails(words: seq<seq<bool>>, b: bool): seq<seq<bool>> {
    if words == [] then []
    else (if |words[0]| > 0 && words[0][0] == b then [words[0][1..]] else []) + Tails(words[1..], b)
  }

  lemma TailBegins(v: seq<bool>, w: seq<bool>)
    requires |v| > 0 && |w| > 0 && v[0] == w[0]
    ensures v <= w <==> v[1..] <= w[1..]
  {
    assert v == [v[0]] + v[1..];
    assert w == [w[0]] + w[1..];
  }

  lemma ApartTails(v: seq<bool>, w: seq<bool>)
    requires |v| > 0 && |w| > 0 && v[0] == w[0] && Apart(v, w)
    ensures Apart(v[1..], w[1..])
  {
    TailBegins(v, w);
    TailBegins(w, v);
  }

  lemma ApartNotEmpty(v: seq<bool>, w: seq<bool>)
    requires Apart(v, w)
    ensures |v| > 0 && |w| > 0
  {}

  lemma {:induction false} TailsApart(words: seq<seq<bool>>, b: bool, v: seq<bool>)
    requires |v| > 0 && v[0] == b && forall j | 0 <= j < |words| :: Apart(v, words[j])
    ensures forall j | 0 <= j < |Tails(words, b)| :: Apart(v[1..], Tails(words, b)[j])
  {
    if words != [] {
      TailsApart(words[1..], b, v);
      if |words[0]| > 0 && words[0][0] == b { ApartTails(v, words[0]); }
    }
  }

  lemma {:induction false} TailsNoPrefixes(words: seq<seq<bool>>, b: bool, m: nat)
    requires NoPrefixes(words) && m > 0 && AtMost(words, m)
    ensures NoPrefixes(Tails(words, b)) && AtMost(Tails(words, b), m - 1)
  {
    if words != [] {
      TailsNoPrefixes(words[1..], b, m);
      if |words[0]| > 0 && words[0][0] == b {
        TailsApart(words[1..], b, words[0]);
        assert Tails(words, b)[1..] == Tails(words[1..], b);
      } else {
        assert Tails(words, b) == Tails(words[1..], b);
      }
    }
  }

  lemma {:induction false} RoomSplits(words: seq<seq<bool>>, m: nat)
    requires m > 0 && AtMost(words, m) && forall j | 0 <= j < |words| :: |words[j]| > 0
    ensures WordRoom(words, m) == WordRoom(Tails(words, false), m - 1) + WordRoom(Tails(words, true), m - 1)
  {
    if words != [] {
      RoomSplits(words[1..], m);
      var b := words[0][0];
      assert Tails(words, b)[1..] == Tails(words[1..], b);
      assert Tails(words, !b) == Tails(words[1..], !b);
    }
  }

  // An empty word leaves no room for another.
  lemma NoneEmpty(words: seq<seq<bool>>)
    requires NoPrefixes(words) && |words| >= 2
    ensures forall i | 0 <= i < |words| :: |words[i]| > 0
  {
    forall i | 0 <= i < |words| ensures |words[i]| > 0 {
      ApartNotEmpty(words[0], words[if i == 0 then 1 else i]);
    }
  }

  lemma {:induction false} KraftInequality(words: seq<seq<bool>>, m: nat)
    requires NoPrefixes(words) && AtMost(words, m)
    ensures WordRoom(words, m) <= Pow2(m)
    decreases m
  {
    if |words| == 1 {
      assert words[1..] == [];
      Pow2Mono(m - |words[0]|, m);
    } else if |words| >= 2 {
      NoneEmpty(words);
      assert |words[0]| > 0;
      TailsNoPrefixes(words, false, m);
      TailsNoPrefixes(words, true, m);
      KraftInequality(Tails(words, false), m - 1);
      KraftInequality(Tails(words, true), m - 1);
      RoomSplits(words, m);
    }
  }
}
