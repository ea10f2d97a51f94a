/** The bit operations of Go's uint32 on naturals. */
module Bits {
  const WORD := 0x1_0000_0000   // 2^32

  function Pow2(k: nat): (r: nat)
    ensures r >= 1
  {
    if k == 0 then 1 else 2 * Pow2(k - 1)
  }

  // ---------------------------------------------------------------- bitwise operations on naturals

  function And(x: nat, y: nat): nat {
    if x == 0 || y == 0 then 0
    else 2 * And(x / 2, y / 2) + if x % 2 == 1 && y % 2 == 1 then 1 else 0
  }

  function Or(x: nat, y: nat): nat
    decreases x + y
  {
    if x == 0 then y
    else if y == 0 then x
    else 2 * Or(x / 2, y / 2) + if x % 2 == 1 || y % 2 == 1 then 1 else 0
  }

  /** The k low bits of x. */
  function Low(x: nat, k: nat): nat {
    x % Pow2(k)
  }

  lemma Halves(x: nat, k: nat)
    ensures Low(x, k + 1) == 2 * Low(x / 2, k) + x % 2
  {
    var p := Pow2(k);
    var q, r := (x / 2) / p, (x / 2) % p;
    assert x / 2 == q * p + r;
    Twice(q, p);
    Remainder(x, 2 * p, q, 2 * r + x % 2);
  }

  lemma Twice(q: nat, p: nat)
    ensures q * (2 * p) == 2 * (q * p)
  {
  }

  lemma Remainder(x: nat, p: nat, q: nat, r: nat)
    requires p > 0 && x == q * p + r && r < p
    ensures x / p == q && x % p == r
  {
    var q', r' := x / p, x % p;
    assert x == q' * p + r';
    if q' > q {
      assert (q' - q) * p >= p by { Grows(q' - q, p); }
      assert false;
    }
    if q > q' {
      assert (q - q') * p >= p by { Grows(q - q', p); }
      assert false;
    }
  }

  lemma RemainderAtMost(x: nat, p: nat)
    requires p > 0
    ensures x % p <= x
  {
    assert x == x / p * p + x % p;
  }

  lemma Grows(n: nat, p: nat)
    requires n >= 1
    ensures n * p >= p
  {
    assert n * p == (n - 1) * p + p;
  }

  lemma AndOdd(x: nat, y: nat)
    ensures And(x, 2 * y + 1) == 2 * And(x / 2, y) + x % 2
  {
  }

  lemma NoBits(x: nat)
    ensures And(x, 0) == 0 && Low(x, 0) == 0
  {
  }

  /** Masking with k ones leaves the k low bits. */
  lemma {:induction false} AndMask(x: nat, k: nat)
    ensures And(x, Pow2(k) - 1) == Low(x, k)
  {
    hide And, Low, Pow2;
    if k == 0 {
      NoBits(x);
      PowZero();
    } else {
      AndMask(x / 2, k - 1);
      Doubles(k - 1);
      Halves(x, k - 1);
      AndOdd(x, Pow2(k - 1) - 1);
    }
  }

  lemma PowZero()
    ensures Pow2(0) == 1
  {
  }

  lemma OrEven(x: nat, y: nat)
    ensures Or(2 * x, y) == 2 * Or(x, y / 2) + y % 2
  {
  }

  /** OR-ing something below 2^k into a number shifted left by k is addition. */
  lemma {:induction false} OrBelow(x: nat, k: nat, y: nat)
    requires y < Pow2(k)
    ensures Or(x * Pow2(k), y) == x * Pow2(k) + y
  {
    if k > 0 {
      hide Or, Pow2;
      Doubles(k - 1);
      OrBelow(x, k - 1, y / 2);
      Twice(x, Pow2(k - 1));
      OrEven(x * Pow2(k - 1), y);
    }
  }

  lemma Pow2At(k: nat)
    requires k <= 32
    ensures Pow2(32) == WORD && Pow2(8) == 0x100 && Pow2(k) <= WORD
  {
    assert Pow2(4) == 16 && Pow2(8) == 256 && Pow2(12) == 0x1000 && Pow2(16) == 0x1_0000;
    assert Pow2(20) == 0x10_0000 && Pow2(24) == 0x100_0000 && Pow2(28) == 0x1000_0000;
    assert Pow2(32) == WORD;
    Monotone(k, 32);
  }

  lemma {:induction false} Monotone(a: nat, b: nat)
    requires a <= b
    ensures Pow2(a) <= Pow2(b)
  {
    if a < b {
      Monotone(a, b - 1);
    }
  }

  /** A uint32 result. */
  function Wrapped(x: int): (r: nat)
    ensures r < WORD
  {
    x % WORD
  }

  /** The mask in uint32 arithmetic; for a /0 the shifted one vanishes and the subtraction wraps to all ones. */
  lemma MaskWraps(hostBits: nat)
    requires hostBits <= 32
    ensures Wrapped(Wrapped(Pow2(hostBits)) - 1) == Pow2(hostBits) - 1
  {
    hide Pow2;
    Pow2At(hostBits);
    if hostBits < 32 {
      Monotone(hostBits, 31);
      Doubles(31);
    }
  }

  lemma Doubles(k: nat)
    ensures Pow2(k + 1) == 2 * Pow2(k)
  {
  }

  lemma MaskHost(host: nat, hostBits: nat)
    requires hostBits <= 32
    ensures And(host, Wrapped(Wrapped(Pow2(hostBits)) - 1)) == Low(host, hostBits)
  {
    hide And, Pow2, Wrapped, Low;
    AndMask(host, hostBits);
    MaskWraps(hostBits);
  }
}
