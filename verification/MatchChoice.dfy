// Which matches the compressor adopts: lazily, "only if there is no better match at the next
// window position" (deps/zlib/deflate.c:1905-1909), or as they come.

module MatchChoice {
  import opened Bits
  import opened Tokens

  // What was decided for the string at a text position: the length of its match, below three for
  // none and no more than that of a match held back when none is longer; and where it begins.
  datatype Pick = Pick(len: nat, from: int)

  // A token for the string at a is the one to adopt: a match is the one found there, and if lazy
  // none longer was found for the next string; a literal has no match, or a longer one after it.
  predicate Adopted(t: Token, a: nat, found: map<nat, Pick>, lazy: bool) {
    && a in found
    && match t
       case Literal(_) => found[a].len < MIN_MATCH || (lazy && a + 1 in found && found[a].len < found[a + 1].len)
       case Copy(n, d) => found[a] == Pick(n, a - d) && (lazy ==> a + 1 in found && found[a + 1].len <= n)
  }

  // The bytes that tokens stand for.
  function Span(t: Token): nat {
    match t case Literal(_) => 1 case Copy(n, _) => n
  }

  function Spanned(ts: seq<Token>): nat {
    if ts == [] then 0 else Spanned(ts[..|ts| - 1]) + Span(ts[|ts| - 1])
  }

  // All tokens are, each for the string that those before it lead to.
  predicate Chosen(ts: seq<Token>, found: map<nat, Pick>, lazy: bool) {
    ts == [] ||
    (var n := |ts| - 1; Chosen(ts[..n], found, lazy) && Adopted(ts[n], Spanned(ts[..n]), found, lazy))
  }

  lemma {:induction false} ChosenAt(ts: seq<Token>, found: map<nat, Pick>, lazy: bool, k: nat)
    requires Chosen(ts, found, lazy) && k < |ts|
    ensures Adopted(ts[k], Spanned(ts[..k]), found, lazy)
  {
    var n := |ts| - 1;
    if k < n {
      ChosenAt(ts[..n], found, lazy, k);
      assert ts[..n][..k] == ts[..k];
    }
  }

  lemma ChosenNext(ts: seq<Token>, t: Token, found: map<nat, Pick>, lazy: bool)
    requires Chosen(ts, found, lazy) && Adopted(t, Spanned(ts), found, lazy)
    ensures Chosen(ts + [t], found, lazy)
  {
    assert (ts + [t])[..|ts|] == ts;
  }

  // A search further on changes no choice made before.
  lemma {:induction false} ChosenStays(ts: seq<Token>, found: map<nat, Pick>, lazy: bool, a: nat, p: Pick)
    requires Chosen(ts, found, lazy) && a !in found
    ensures Chosen(ts, found[a := p], lazy)
  {
    if ts != [] { ChosenStays(ts[..|ts| - 1], found, lazy, a, p); }
  }

  lemma {:induction false} SpannedFront(t: Token, ts: seq<Token>)
    ensures Spanned([t] + ts) == Span(t) + Spanned(ts)
  {
    var all := [t] + ts;
    if ts == [] {
      assert all == [t];
      assert [t][..0] == [];
    } else {
      SpannedFront(t, ts[..|ts| - 1]);
      assert all[..|ts|] == [t] + ts[..|ts| - 1];
    }
  }

  lemma {:induction false} ExpandSpans(out: seq<byte>, ts: seq<Token>)
    requires AllReach(out, ts)
    ensures |Expand(out, ts)| == |out| + Spanned(ts)
    decreases |ts|
  {
    if ts != [] {
      ExpandSpans(ExpandOne(out, ts[0]), ts[1..]);
      SpannedFront(ts[0], ts[1..]);
      assert ts == [ts[0]] + ts[1..];
    }
  }
}
