// The index arithmetic of the io_uring rings: 32-bit counters that wrap, masked down to slots.

module RingIndex {
  import opened Powers

  const TWO32: nat := 0x1_0000_0000

  type u32 = x: nat | x < TWO32

  // What a counter that never wrapped would look like in 32 bits.
  function Wrap(n: int): u32 { n % TWO32 }

  // Bitwise and.
  function And(x: nat, m: nat): nat
    decreases m
  {
    if m == 0 then 0 else (x % 2) * (m % 2) + 2 * And(x / 2, m / 2)
  }

  // With a power of two of slots, masking is the remainder.
  lemma {:induction false} AndMask(x: nat, k: nat)
    ensures And(x, Pow2(k) - 1) == x % Pow2(k)
  {
    hide And, Pow2;
    PowHalf(x, k);
    if k > 0 {
      var p := Pow2(k - 1);
      AndMask(x / 2, k - 1);
      HalfMod(x, p);
      OddMask(x, p);
    }
  }

  lemma PowHalf(x: nat, k: nat)
    ensures k == 0 ==> Pow2(k) == 1 && And(x, 0) == 0
    ensures k > 0 ==> Pow2(k) == 2 * Pow2(k - 1)
  {}

  lemma OddMask(x: nat, p: nat)
    requires p > 0
    ensures And(x, 2 * p - 1) == x % 2 + 2 * And(x / 2, p - 1)
  {
    assert (2 * p - 1) % 2 == 1 && (2 * p - 1) / 2 == p - 1;
  }

  lemma HalfMod(x: nat, p: nat)
    requires p > 0
    ensures x % (2 * p) == x % 2 + 2 * (x / 2 % p)
  {
    var q, r := x / 2 / p, x / 2 % p;
    assert x / 2 == q * p + r;
    assert x == q * (2 * p) + (2 * r + x % 2);
    DivModUnique(x, 2 * p, q, 2 * r + x % 2);
  }

  lemma ModMod(n: nat, c: nat, p: nat)
    requires c > 0 && p > 0 && c * p > 0
    ensures n % (c * p) % p == n % p
  {
    var q, w := n / (c * p), n % (c * p);
    var u, r := w / p, w % p;
    MulAssoc(q, c, p);
    MulAdd(q * c, u, p);
    assert n == q * (c * p) + w && w == u * p + r;
    DivModUnique(n, p, q * c + u, r);
  }

  // Wrapping at 32 bits does not move a slot.
  lemma WrapSlot(n: nat, k: nat)
    requires k <= 32
    ensures Wrap(n) % Pow2(k) == n % Pow2(k)
  {
    hide Pow2;
    Pow2Add(32 - k, k);
    Pow2Is32();
    ModMod(n, Pow2(32 - k), Pow2(k));
  }

  lemma Pow2Is32()
    ensures Pow2(32) == TWO32
  {
    assert Pow2(8) == 256;
    assert Pow2(16) == 65536;
    assert Pow2(24) == 16777216;
  }

  // Counters less than a ring apart do not meet in a slot.
  lemma SlotsDiffer(i: nat, j: nat, n: nat)
    requires i < j < i + n
    ensures i % n != j % n
  {
    if i % n == j % n {
      var p, q := i / n, j / n;
      assert j - i == (q - p) * n by { assert j == q * n + j % n && i == p * n + i % n; }
      if q > p { MulMono(1, q - p, n); } else { MulMono(q, p, n); }
    }
  }

  // The difference of two wrapped counters, taken in 32 bits, is their difference.
  lemma Distance(i: nat, j: nat)
    requires i <= j < i + TWO32
    ensures Wrap(Wrap(j) - Wrap(i)) == j - i
  {
    var p, q := i / TWO32, j / TWO32;
    assert i == p * TWO32 + Wrap(i) && j == q * TWO32 + Wrap(j);
    assert q == p || q == p + 1;
  }

  lemma WrapNext(n: nat, k: nat)
    ensures Wrap(Wrap(n) + k) == Wrap(n + k)
  {
    var q := n / TWO32;
    assert n + k == q * TWO32 + (Wrap(n) + k);
    var u, r := (Wrap(n) + k) / TWO32, (Wrap(n) + k) % TWO32;
    DivModUnique(n + k, TWO32, q + u, r);
  }
}
