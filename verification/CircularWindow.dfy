// The decoder's sliding window (deps/zlib/inflate.c): updatewindow, the window reads
// of state MATCH, and inflateGetDictionary.

module CircularWindow {
  import opened Bits

  // The last n bytes of a text.
  function Last(text: seq<byte>, n: nat): seq<byte>
    requires n <= |text|
  {
    text[|text| - n..]
  }

  // The window read in order: from `next` to the end when it is full, then up to `next`.
  function InOrder(w: seq<byte>, have: nat, next: nat): seq<byte>
    requires next <= |w|
  {
    (if have == |w| then w[next..] else []) + w[..next]
  }

  // w holds as much of the end of the history as fits.
  ghost predicate Holds(w: seq<byte>, have: nat, next: nat, history: seq<byte>) {
    && next < |w|
    && have == (if |history| < |w| then |history| else |w|)
    && (have < |w| ==> next == have)
    && InOrder(w, have, next) == Last(history, have)
  }

  // dst with src written from index `at` on.
  function Put(dst: seq<byte>, at: nat, src: seq<byte>): (r: seq<byte>)
    requires at + |src| <= |dst|
    ensures |r| == |dst|
  {
    dst[..at] + src + dst[at + |src|..]
  }

  method Memcpy(dst: array<byte>, at: nat, src: seq<byte>)
    requires at + |src| <= dst.Length
    modifies dst
    ensures dst[..] == Put(old(dst[..]), at, src)
  {
    ghost var d := dst[..];
    var i := 0;
    while i < |src|
      invariant 0 <= i <= |src|
      invariant dst[..] == d[..at] + src[..i] + d[at + i..]
    {
      dst[at + i] := src[i];
      assert src[..i + 1] == src[..i] + [src[i]];
      i := i + 1;
    }
    assert src[..i] == src;
  }

  // ------------------------------------------------------------ the three copies

  lemma LastAppend(history: seq<byte>, have: nat, out: seq<byte>, excess: nat)
    requires have <= |history| && excess <= have
    ensures Last(history + out, have + |out| - excess) == Last(history, have)[excess..] + out
  {}

  // Room for everything before the end of the buffer.
  lemma ForwardOrder(w: seq<byte>, have: nat, next: nat, out: seq<byte>)
    requires next < |w| && next + |out| <= |w| && |out| < |w|
    requires have <= |w| && (have < |w| ==> next == have)
    ensures var excess := if have == |w| then |out| else 0;
            var have' := if have < |w| then have + |out| else have;
            var next' := if next + |out| == |w| then 0 else next + |out|;
            excess <= |InOrder(w, have, next)| &&
            InOrder(Put(w, next, out), have', next') == InOrder(w, have, next)[excess..] + out
  {
    var w', n := Put(w, next, out), next + |out|;
    assert w'[..n] == w[..next] + out;
    assert w'[n..] == w[n..];
    if n == |w| {
      assert w' == w'[..n];
    }
    if have == |w| {
      assert w[next..][|out|..] == w[n..];
      assert (w[next..] + w[..next])[|out|..] == w[n..] + w[..next];
    }
  }

  lemma FillForward(w: seq<byte>, have: nat, next: nat, history: seq<byte>, out: seq<byte>)
    requires Holds(w, have, next, history) && next + |out| <= |w| && |out| < |w|
    ensures Holds(Put(w, next, out), if have < |w| then have + |out| else have,
                  if next + |out| == |w| then 0 else next + |out|, history + out)
  {
    ForwardOrder(w, have, next, out);
    LastAppend(history, have, out, if have == |w| then |out| else 0);
  }

  // The copy runs to the end of the buffer and goes on at its start.
  lemma AroundOrder(w: seq<byte>, have: nat, next: nat, out: seq<byte>, dist: nat)
    requires next < |w| && |out| < |w| && dist == |w| - next && dist < |out|
    requires have <= |w| && (have < |w| ==> next == have)
    ensures var w' := Put(Put(w, next, out[..dist]), 0, out[dist..]);
            var excess := have + |out| - |w|;
            |InOrder(w, have, next)| == have && excess <= have &&
            InOrder(w', |w|, |out| - dist) == InOrder(w, have, next)[excess..] + out
  {
    var rest := |out| - dist;
    AroundParts(w, next, out, dist, rest);
    assert out[..dist] + out[dist..] == out;
    if have == |w| {
      assert (w[next..] + w[..next])[|out|..] == w[rest..next];
    } else {
      assert w[..next][rest..] == w[rest..next];
    }
    Assoc(w[rest..next], out[..dist], out[dist..]);
  }

  lemma AroundParts(w: seq<byte>, next: nat, out: seq<byte>, dist: nat, rest: nat)
    requires next < |w| && |out| < |w| && dist == |w| - next && rest == |out| - dist > 0
    ensures var w' := Put(Put(w, next, out[..dist]), 0, out[dist..]);
            w'[..rest] == out[dist..] && w'[rest..] == w[rest..next] + out[..dist]
  {
    var v := Put(w, next, out[..dist]);
    assert v == w[..next] + out[..dist];
    var w' := Put(v, 0, out[dist..]);
    assert w' == out[dist..] + v[rest..];
    assert v[rest..] == w[rest..next] + out[..dist];
  }

  lemma FillAround(w: seq<byte>, have: nat, next: nat, history: seq<byte>, out: seq<byte>, dist: nat)
    requires Holds(w, have, next, history) && |out| < |w|
    requires dist == |w| - next && dist < |out|
    ensures Holds(Put(Put(w, next, out[..dist]), 0, out[dist..]), |w|, |out| - dist, history + out)
  {
    AroundOrder(w, have, next, out, dist);
    LastAppend(history, have, out, have + |out| - |w|);
  }

  lemma FillWhole(w: seq<byte>, history: seq<byte>, out: seq<byte>)
    requires 0 < |w| <= |out|
    ensures Holds(Put(w, 0, out[|out| - |w|..]), |w|, 0, history + out)
  {
    var s := out[|out| - |w|..];
    assert Put(w, 0, s) == s;
    assert InOrder(s, |w|, 0) == s;
    assert Last(history + out, |w|) == s;
  }

  // ------------------------------------------------------------ reads

  // From k bytes ago on: up to `next` when that many bytes lie before it, and otherwise
  // the part that lies beyond the wrap.
  lemma ReadLow(w: seq<byte>, have: nat, next: nat, history: seq<byte>, k: nat, from: nat)
    requires Holds(w, have, next, history) && 1 <= k <= have && k <= next && from == next - k
    ensures w[from..from + k] == history[|history| - k..|history| - k + k]
  {
    var s := InOrder(w, have, next);
    assert s[have - k..] == w[next - k..next];
    assert Last(history, have)[have - k..] == history[|history| - k..];
  }

  lemma ReadHigh(w: seq<byte>, have: nat, next: nat, history: seq<byte>, k: nat, from: nat, piece: nat)
    requires Holds(w, have, next, history) && next < k <= have && piece == k - next && from == |w| - piece
    ensures w[from..from + piece] == history[|history| - k..|history| - k + piece]
  {
    var s := InOrder(w, have, next);
    assert s[have - k..have - next] == w[|w| + next - k..];
    assert Last(history, have)[have - k..have - next] == history[|history| - k..|history| - next];
  }

  class Window {
    var window: array<byte>
    var wsize: nat   // 0 until the window is first used
    var whave: nat
    var wnext: nat
    ghost var history: seq<byte>   // everything the window has been shown

    ghost predicate Valid()
      reads this, window
    {
      && 0 < window.Length
      && (wsize == 0 || wsize == window.Length)
      && (wsize == 0 ==> whave == wnext == 0 && history == [])
      && (wsize > 0 ==> Holds(window[..], whave, wnext, history))
    }

    lemma HaveIs()
      requires Valid()
      ensures whave == if |history| < window.Length then |history| else window.Length
    {}

    // The source allocates the window on first use; here it exists from the start.
    constructor (size: nat)
      requires size > 0
      ensures Valid() && fresh(window) && window.Length == size && history == []
    {
      window := new byte[size](_ => 0);
      wsize, whave, wnext := 0, 0, 0;
      history := [];
    }

    // Shows the window the bytes `out` just written.
    method UpdateWindow(out: seq<byte>)
      requires Valid()
      modifies this, window
      ensures Valid() && window == old(window)
      ensures history == old(history) + out && wsize == window.Length
    {
      if wsize == 0 {
        wsize := window.Length;
        wnext, whave := 0, 0;
      }
      assert Holds(window[..], whave, wnext, history);
      CopyIn(out);
    }

    method CopyIn(out: seq<byte>)
      requires wsize == window.Length > 0 && Holds(window[..], whave, wnext, history)
      modifies this, window
      ensures window == old(window) && wsize == old(wsize)
      ensures history == old(history) + out && Holds(window[..], whave, wnext, history)
    {
      HoldsRange(window[..], whave, wnext, history);
      hide Holds, Put;
      ghost var w := window[..];
      var copy := |out|;
      if copy >= wsize {
        FillWhole(w, history, out);
        Memcpy(window, 0, out[copy - wsize..]);
        wnext := 0;
        whave := wsize;
      } else {
        var dist := wsize - wnext;
        if dist > copy { dist := copy; }
        if dist < copy {
          FillAround(w, whave, wnext, history, out, dist);
          Memcpy(window, wnext, out[..dist]);
          copy := copy - dist;
          Memcpy(window, 0, out[dist..]);
          wnext := copy;
          whave := wsize;
        } else {
          FillForward(w, whave, wnext, history, out);
          Memcpy(window, wnext, out);
          wnext := wnext + dist;
          if wnext == wsize { wnext := 0; }
          if whave < wsize { whave := whave + dist; }
        }
      }
      history := history + out;
    }

    static lemma HoldsRange(w: seq<byte>, have: nat, next: nat, history: seq<byte>)
      requires Holds(w, have, next, history)
      ensures next < |w| && have <= |w| && have <= |history|
    {}

    // inflateGetDictionary: the window in order is the recent past.
    method GetDictionary() returns (dictionary: seq<byte>)
      requires Valid()
      ensures |dictionary| <= |history| && dictionary == Last(history, |dictionary|)
      ensures |dictionary| == if wsize == 0 || |history| < wsize then |history| else wsize
    {
      if whave > 0 {
        dictionary := (if wnext < whave then window[wnext..whave] else []) + window[..wnext];
        DictionaryIs(window[..], whave, wnext, history);
        assert window[..][..wnext] == window[..wnext];
        if wnext < whave { assert window[..][wnext..whave] == window[wnext..whave]; }
      } else {
        dictionary := [];
      }
    }

    static lemma DictionaryIs(w: seq<byte>, have: nat, next: nat, history: seq<byte>)
      requires Holds(w, have, next, history)
      ensures (if next < have then w[next..have] else []) + w[..next] == Last(history, have)
    {
      if have == |w| { assert w[next..have] == w[next..]; }
    }

    // State MATCH reading from `back` bytes ago: where to read, and how many bytes lie
    // there in one piece.
    method Locate(back: nat) returns (from: nat, piece: nat)
      requires Valid() && 1 <= back <= whave
      ensures 1 <= piece <= back <= |history| && from + piece <= window.Length
      ensures window[..][from..from + piece] == history[|history| - back..|history| - back + piece]
    {
      hide InOrder, Last;
      HoldsRange(window[..], whave, wnext, history);
      hide Holds;
      piece := back;
      if piece > wnext {
        piece := piece - wnext;
        from := wsize - piece;
        ReadHigh(window[..], whave, wnext, history, back, from, piece);
      } else {
        from := wnext - piece;
        ReadLow(window[..], whave, wnext, history, back, from);
      }
    }
  }
}
