// The rolling hash of three-byte strings: UPDATE_HASH of deps/zlib/deflate.c:141 and the
// choice of hash_shift that makes the oldest byte drop out (deflate.h:168-172).

module StringHash {
  import opened Powers
  import opened Bits

  function Xor(a: nat, b: nat): nat {
    if a == 0 && b == 0 then 0 else (if a % 2 == b % 2 then 0 else 1) + 2 * Xor(a / 2, b / 2)
  }

  function Shl(a: nat, s: nat): nat {
    if s == 0 then a else 2 * Shl(a, s - 1)
  }

  // hash_shift for a given number of hash bits.
  function HashShift(bits: nat): nat { (bits + 2) / 3 }

  function Shift(h: nat, bits: nat): nat {
    Lo(Shl(h, HashShift(bits)), bits)
  }

  // UPDATE_HASH: h << hash_shift, xor c, masked to the hash's bits.
  function UpdateHash(h: nat, c: byte, bits: nat): (r: nat)
    ensures r < Pow2(bits)
  {
    Lo(Xor(Shl(h, HashShift(bits)), c), bits)
  }

  // The hash of three bytes, as it is first computed from a string.
  function Hash3(a: byte, b: byte, c: byte, bits: nat): (r: nat)
    ensures r < Pow2(bits)
  {
    UpdateHash(UpdateHash(a, b, bits), c, bits)
  }

  // ------------------------------------------------------------ exclusive or

  lemma LoDigit(d: nat, v: nat, n: nat)
    requires d < 2 && n > 0
    ensures Lo(d + 2 * v, n) == d + 2 * Lo(v, n - 1)
    ensures Lo(d + 2 * v, n) % 2 == d && Lo(d + 2 * v, n) / 2 == Lo(v, n - 1)
  {
    DigitOf(v, d);
  }

  lemma {:induction false} XorLo(a: nat, b: nat, n: nat)
    ensures Lo(Xor(a, b), n) == Xor(Lo(a, n), Lo(b, n))
  {
    hide Xor, Lo;
    if n == 0 {
      LoNone(a, b);
    } else {
      XorLo(a / 2, b / 2, n - 1);
      XorZero(a, b);
      LoDigit(if a % 2 == b % 2 then 0 else 1, Xor(a / 2, b / 2), n);
      LoDigit(a % 2, a / 2, n);
      LoDigit(b % 2, b / 2, n);
      XorZero(Lo(a, n), Lo(b, n));
    }
  }

  lemma LoNone(a: nat, b: nat)
    ensures Lo(Xor(a, b), 0) == 0 == Xor(Lo(a, 0), Lo(b, 0))
  {}

  lemma {:induction false} XorCancel(a: nat, b: nat, c: nat)
    requires Xor(a, b) == Xor(a, c)
    ensures b == c
    decreases a + b + c
  {
    if a + b + c > 0 {
      XorZero(a, b);
      XorZero(a, c);
      XorCancel(a / 2, b / 2, c / 2);
    }
  }

  lemma XorZero(a: nat, b: nat)
    ensures Xor(a, b) == (if a % 2 == b % 2 then 0 else 1) + 2 * Xor(a / 2, b / 2)
  {}

  lemma {:induction false} XorAssoc(a: nat, b: nat, c: nat)
    ensures Xor(Xor(a, b), c) == Xor(a, Xor(b, c))
    decreases a + b + c
  {
    hide Xor;
    XorDigits(a, b);
    XorDigits(b, c);
    XorDigits(Xor(a, b), c);
    XorDigits(a, Xor(b, c));
    if a + b + c > 0 {
      XorAssoc(a / 2, b / 2, c / 2);
      SameDigits(Xor(Xor(a, b), c), Xor(a, Xor(b, c)));
    }
  }

  // The lowest digit, and the others.
  lemma XorDigits(a: nat, b: nat)
    ensures Xor(a, b) % 2 == (if a % 2 == b % 2 then 0 else 1) && Xor(a, b) / 2 == Xor(a / 2, b / 2)
  {
    hide Xor;
    XorZero(a, b);
    DigitOf(Xor(a / 2, b / 2), if a % 2 == b % 2 then 0 else 1);
  }

  lemma SameDigits(x: nat, y: nat)
    requires x % 2 == y % 2 && x / 2 == y / 2
    ensures x == y
  {}

  lemma {:induction false} XorLeftZero(a: nat)
    ensures Xor(0, a) == a
  {
    if a > 0 { XorLeftZero(a / 2); }
  }

  lemma {:induction false} ShlXor(a: nat, b: nat, s: nat)
    ensures Shl(Xor(a, b), s) == Xor(Shl(a, s), Shl(b, s))
  {
    hide Xor;
    if s > 0 {
      ShlXor(a, b, s - 1);
      XorZero(Shl(a, s), Shl(b, s));
    }
  }

  // ------------------------------------------------------------ masked shifts

  lemma {:induction false} LoShl(a: nat, b: nat, s: nat, n: nat)
    requires Lo(a, n) == Lo(b, n)
    ensures Lo(Shl(a, s), n) == Lo(Shl(b, s), n)
  {
    if s > 0 && n > 0 {
      LoShl(a, b, s - 1, n);
      var x, y := Shl(a, s - 1), Shl(b, s - 1);
      hide Lo;
      LoDouble(x, n);
      LoDouble(y, n);
      LoLo(x, n - 1, n);
      LoLo(y, n - 1, n);
    }
  }

  lemma {:induction false} LoShlOut(a: nat, s: nat, n: nat)
    requires n <= s
    ensures Lo(Shl(a, s), n) == 0
  {
    if n > 0 { LoShlOut(a, s - 1, n - 1); }
  }

  lemma {:induction false} ShlShl(a: nat, s: nat, t: nat)
    ensures Shl(Shl(a, s), t) == Shl(a, s + t)
  {
    if t > 0 { ShlShl(a, s, t - 1); }
  }

  lemma ShiftXor(a: nat, b: nat, bits: nat)
    ensures Shift(Xor(a, b), bits) == Xor(Shift(a, bits), Shift(b, bits))
  {
    var s := HashShift(bits);
    ShlXor(a, b, s);
    XorLo(Shl(a, s), Shl(b, s), bits);
  }

  lemma ShiftLo(a: nat, bits: nat)
    ensures Shift(Lo(a, bits), bits) == Shift(a, bits)
  {
    LoLo(a, bits, bits);
    LoShl(Lo(a, bits), a, HashShift(bits), bits);
  }

  // After three shifts nothing is left.
  lemma ShiftOut(a: nat, bits: nat)
    ensures Shift(Shift(Shift(a, bits), bits), bits) == 0
  {
    var s := HashShift(bits);
    ShiftLo(Shl(a, s), bits);
    ShiftLo(Shl(Shl(a, s), s), bits);
    assert Shift(Shift(a, bits), bits) == Lo(Shl(Shl(a, s), s), bits);
    ShlShl(a, s, s);
    ShlShl(a, s + s, s);
    LoShlOut(a, s + s + s, bits);
  }

  // ------------------------------------------------------------ the hash

  lemma UpdateIs(h: nat, c: byte, bits: nat)
    requires 8 <= bits
    ensures UpdateHash(h, c, bits) == Xor(Shift(h, bits), c)
  {
    XorLo(Shl(h, HashShift(bits)), c, bits);
    ByteFits(c, bits);
  }

  lemma ByteFits(c: byte, bits: nat)
    requires 8 <= bits
    ensures Lo(c, bits) == c
  {
    Pow2Mono(8, bits);
    assert Pow2(8) == 256;
    LoSmall(c, bits);
  }

  lemma Hash3Is(a: byte, b: byte, c: byte, bits: nat)
    requires 8 <= bits
    ensures Hash3(a, b, c, bits) == Xor(Shift(Xor(Shift(a, bits), b), bits), c)
  {
    UpdateIs(a, b, bits);
    UpdateIs(UpdateHash(a, b, bits), c, bits);
  }

  // The key that the next byte turns into the hash of a, b and that byte.
  ghost predicate Primed(h: nat, a: byte, b: byte, bits: nat) {
    Shift(h, bits) == Shift(UpdateHash(a, b, bits), bits)
  }

  // Any key is primed by the two bytes it took in last.
  lemma RollPrimed(h: nat, a: byte, b: byte, bits: nat)
    requires 8 <= bits
    ensures Primed(UpdateHash(UpdateHash(h, a, bits), b, bits), a, b, bits)
  {
    hide UpdateHash, Shift, Xor;
    var sh, sa := Shift(h, bits), Shift(a, bits);
    UpdateIs(h, a, bits);
    UpdateIs(UpdateHash(h, a, bits), b, bits);
    ShiftXor(sh, a, bits);
    var ssh := Shift(sh, bits);
    XorAssoc(ssh, sa, b);
    UpdateIs(a, b, bits);
    ShiftXor(ssh, UpdateHash(a, b, bits), bits);
    ShiftOut(h, bits);
    XorLeftZero(Shift(UpdateHash(a, b, bits), bits));
  }

  lemma PrimedUpdate(h: nat, a: byte, b: byte, c: byte, bits: nat)
    requires 8 <= bits && Primed(h, a, b, bits)
    ensures UpdateHash(h, c, bits) == Hash3(a, b, c, bits)
  {
    UpdateIs(h, c, bits);
    UpdateIs(UpdateHash(a, b, bits), c, bits);
  }

  // So whatever a key was, after three bytes it is their hash: older ones have been shifted out.
  lemma OldBytesGone(h: nat, a: byte, b: byte, c: byte, bits: nat)
    requires 8 <= bits
    ensures UpdateHash(UpdateHash(UpdateHash(h, a, bits), b, bits), c, bits) == Hash3(a, b, c, bits)
  {
    RollPrimed(h, a, b, bits);
    PrimedUpdate(UpdateHash(UpdateHash(h, a, bits), b, bits), a, b, c, bits);
  }

  // Equal hashes and two equal bytes force the third, which is why longest_match does
  // not compare it.
  lemma ThirdByte(a: byte, b: byte, c: byte, d: byte, bits: nat)
    requires 8 <= bits && Hash3(a, b, c, bits) == Hash3(a, b, d, bits)
    ensures c == d
  {
    Hash3Is(a, b, c, bits);
    Hash3Is(a, b, d, bits);
    XorCancel(Shift(Xor(Shift(a, bits), b), bits), c, d);
  }
}
