// LZ77 tokens and what they expand to (section 3.2.3 of RFC 1951).

module Tokens {
  import opened Bits

  datatype Token = Literal(b: byte) | Copy(length: nat, distance: nat)

  const MIN_MATCH := 3
  const MAX_MATCH := 258

  predicate TokenOk(t: Token) {
    t.Copy? ==> MIN_MATCH <= t.length <= MAX_MATCH && 1 <= t.distance <= 32768
  }

  // Appends n bytes, each the one `distance` back: copies may overlap themselves.
  function CopyBack(out: seq<byte>, n: nat, distance: nat): (r: seq<byte>)
    requires 1 <= distance <= |out|
    ensures |r| == |out| + n && r[..|out|] == out
    decreases n
  {
    if n == 0 then out
    else
      var r := CopyBack(out, n - 1, distance);
      r + [r[|r| - distance]]
  }

  // A token can be expanded after out.
  predicate Reaches(out: seq<byte>, t: Token) {
    t.Copy? ==> 1 <= t.distance <= |out|
  }

  function ExpandOne(out: seq<byte>, t: Token): (r: seq<byte>)
    requires Reaches(out, t)
    ensures |r| >= |out| && r[..|out|] == out
  {
    match t case Literal(b) => out + [b] case Copy(n, d) => CopyBack(out, n, d)
  }

  predicate AllReach(out: seq<byte>, ts: seq<Token>)
    decreases |ts|
  {
    |ts| == 0 || (Reaches(out, ts[0]) && AllReach(ExpandOne(out, ts[0]), ts[1..]))
  }

  // The bytes a list of tokens stands for, after those already in out.
  function Expand(out: seq<byte>, ts: seq<Token>): seq<byte>
    requires AllReach(out, ts)
    decreases |ts|
  {
    if |ts| == 0 then out else Expand(ExpandOne(out, ts[0]), ts[1..])
  }

  lemma {:induction false} ExpandAppend(out: seq<byte>, ts: seq<Token>, t: Token)
    requires AllReach(out, ts) && Reaches(Expand(out, ts), t)
    ensures AllReach(out, ts + [t])
    ensures Expand(out, ts + [t]) == ExpandOne(Expand(out, ts), t)
    decreases |ts|
  {
    if |ts| == 0 {
      assert ([] + [t])[1..] == [];
      assert ts + [t] == [t];
    } else {
      ExpandAppend(ExpandOne(out, ts[0]), ts[1..], t);
      assert (ts + [t])[1..] == ts[1..] + [t];
    }
  }

  // Every byte of a copy is the one `distance` before it.
  lemma {:induction false} CopyBackAt(out: seq<byte>, n: nat, distance: nat, i: nat)
    requires 1 <= distance <= |out| && |out| <= i < |out| + n
    ensures CopyBack(out, n, distance)[i] == CopyBack(out, n, distance)[i - distance]
    decreases n
  {
    if i < |out| + n - 1 { CopyBackAt(out, n - 1, distance, i); }
  }

  // A text that repeats itself at the given distance is what the copy produces.
  lemma {:induction false} CopyBackIs(out: seq<byte>, n: nat, distance: nat, text: seq<byte>)
    requires 1 <= distance <= |out| && |text| == |out| + n && text[..|out|] == out
    requires forall i :: |out| <= i < |text| ==> text[i] == text[i - distance]
    ensures CopyBack(out, n, distance) == text
    decreases n
  {
    if n == 0 {
      assert text[..|out|] == text;
    } else {
      var front := text[..|text| - 1];
      assert front[..|out|] == out;
      CopyBackIs(out, n - 1, distance, front);
      assert text == front + [text[|text| - 1]];
    }
  }
}
