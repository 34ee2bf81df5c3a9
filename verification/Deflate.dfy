// The matcher over a whole stream: any number of deflate() calls, each with any input,
// flush request and output room; and what the decoder makes of its blocks.

module Deflate {
  import opened Bits
  import opened Tokens
  import opened MatchChoice
  import opened DeflateState
  import opened LazyMatching
  import opened FastMatching

  // Everything given so far: read into the window or not yet.
  ghost function Given(s: Deflater): seq<byte>
    requires s.next <= |s.input|
    reads s`text, s`input, s`next
  {
    s.text + s.input[s.next..]
  }

  method Give(s: Deflater, more: seq<byte>)
    requires s.next <= |s.input|
    modifies s`input, s`next
    ensures s.next <= |s.input| && Given(s) == old(Given(s)) + more
  {
    Assoc(s.text, s.input[s.next..], more);
    s.input, s.next := s.input[s.next..] + more, 0;
    assert s.input[0..] == s.input;
  }

  lemma StillGiven(text: seq<byte>, input: seq<byte>, a: nat, b: nat)
    requires a <= b <= |input|
    ensures (text + input[a..b]) + input[b..] == text + input[a..]
  {
    assert input[a..] == input[a..b] + input[b..];
  }

  // How much of the text the tokens stand for: all but the lookahead and a byte held back.
  ghost function Said(s: Deflater): (n: nat)
    reads s`base, s`strstart, s`matchAvailable
    ensures s.base + s.strstart - 1 <= n <= s.base + s.strstart
  {
    if s.matchAvailable && s.strstart >= 1 then s.base + s.strstart - 1 else s.base + s.strstart
  }

  // Levels 4 to 9.
  method SlowCall(s: Deflater, more: seq<byte>, noFlush: bool) returns (finished: bool)
    requires Lazy(s) && s.Holds(false)
    modifies s, s.window, s.head, s.prev
    ensures Lazy(s) && s.Holds(false) && Given(s) == old(Given(s)) + more
    ensures Spells(s.Tokens(), Given(s), Said(s), s.MaxDist()) && s.base + s.strstart + s.lookahead == |s.text|
    ensures Chosen(s.Tokens(), s.found, true)
    ensures finished ==> Spells(s.Tokens(), Given(s), |Given(s)|, s.MaxDist())
  {
    hide Held, Spells, Chosen, Deflater.Aligned, Deflater.Linked, Deflater.Keyed;
    Give(s, more);
    ghost var text, next := s.text, s.next;
    finished := DeflateSlow(s, noFlush);
    StillGiven(text, s.input, next, s.next);
    TokensSoFar(s, Said(s));
    if finished { AllGiven(s); }
  }

  // Levels 1 to 3.
  method FastCall(s: Deflater, more: seq<byte>, noFlush: bool) returns (finished: bool)
    requires Eager(s) && s.Holds(false)
    modifies s, s.window, s.head, s.prev
    ensures Eager(s) && s.Holds(false) && Given(s) == old(Given(s)) + more
    ensures Spells(s.Tokens(), Given(s), s.base + s.strstart, s.MaxDist()) && s.base + s.strstart + s.lookahead == |s.text|
    ensures Chosen(s.Tokens(), s.found, false)
    ensures finished ==> Spells(s.Tokens(), Given(s), |Given(s)|, s.MaxDist())
  {
    hide Spells, Chosen, Deflater.Aligned, Deflater.Linked, Deflater.Keyed;
    Give(s, more);
    ghost var text, next := s.text, s.next;
    finished := DeflateFast(s, noFlush);
    StillGiven(text, s.input, next, s.next);
    TokensSoFar(s, s.base + s.strstart);
    if finished { AllGiven(s); }
  }

  lemma AllGiven(s: Deflater)
    requires s.Sizes() && s.next == |s.input| && s.Told(|s.text|)
    ensures Spells(s.Tokens(), Given(s), |Given(s)|, s.MaxDist())
  {
    assert s.input[s.next..] == [];
    assert Given(s) == s.text;
  }

  lemma TokensSoFar(s: Deflater, n: nat)
    requires s.Sizes() && s.next <= |s.input| && s.Told(n)
    ensures Spells(s.Tokens(), Given(s), n, s.MaxDist())
  {
    hide Spells;
    TextExtends(s, s.Tokens(), s.text, s.input[s.next..], n);
  }
}
