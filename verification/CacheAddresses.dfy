/**
 How simulate in Lab4_cachelab/cachelab-handout/csim.c takes an address apart
 with 64-bit shifts.  The shifts by b+s, 64-b-s and 64-s are defined in C for
 s > 0 and b + s < 64.
 */
module CacheAddresses {

  /** x >> n */
  function Shr(x: nat, n: nat): nat {
    if n == 0 then x else Shr(x / 2, n - 1)
  }

  /** x << n, without loss */
  function Shl(x: nat, n: nat): nat {
    if n == 0 then x else 2 * Shl(x, n - 1)
  }

  /** The n low bits of x. */
  function Low(x: nat, n: nat): nat {
    if n == 0 then 0 else x % 2 + 2 * Low(x / 2, n - 1)
  }

  function Pow2(n: nat): (p: nat)
    ensures p > 0
  {
    if n == 0 then 1 else 2 * Pow2(n - 1)
  }

  predicate Geometry(s: nat, b: nat) {
    0 < s && b + s < 64
  }

  /** address >> (b+s) */
  function TagOf(address: nat, s: nat, b: nat): nat {
    Shr(address, b + s)
  }

  /** (address << (64-b-s)) >> (64-s), the left shift keeping 64 bits */
  function SetOf(address: nat, s: nat, b: nat): nat
    requires Geometry(s, b)
  {
    Shr(Low(Shl(address, 64 - b - s), 64), 64 - s)
  }

  lemma {:induction false} LowBound(x: nat, n: nat)
    ensures Low(x, n) < Pow2(n)
  {
    if n > 0 {
      LowBound(x / 2, n - 1);
    }
  }

  lemma {:induction false} LowOfShl(x: nat, n: nat, m: nat)
    ensures Low(Shl(x, n), n + m) == Shl(Low(x, m), n)
  {
    if n > 0 {
      LowOfShl(x, n - 1, m);
      assert Shl(x, n) / 2 == Shl(x, n - 1);
    }
  }

  lemma {:induction false} ShrOfShl(x: nat, n: nat, m: nat)
    ensures Shr(Shl(x, n), n + m) == Shr(x, m)
  {
    if n > 0 {
      ShrOfShl(x, n - 1, m);
      assert Shl(x, n) / 2 == Shl(x, n - 1);
    }
  }

  lemma {:induction false} ShrOfLow(x: nat, n: nat, m: nat)
    ensures Shr(Low(x, n + m), n) == Low(Shr(x, n), m)
  {
    if n > 0 {
      ShrOfLow(x / 2, n - 1, m);
      assert Low(x, n + m) / 2 == Low(x / 2, n + m - 1);
    }
  }

  lemma {:induction false} ShrTwice(x: nat, n: nat, m: nat)
    ensures Shr(Shr(x, n), m) == Shr(x, n + m)
  {
    if n > 0 {
      ShrTwice(x / 2, n - 1, m);
    }
  }

  /** High and low bits make up a number. */
  lemma {:induction false} HighAndLow(x: nat, y: nat, n: nat)
    ensures x == y <==> Shr(x, n) == Shr(y, n) && Low(x, n) == Low(y, n)
  {
    if n > 0 {
      HighAndLow(x / 2, y / 2, n - 1);
      assert x == 2 * (x / 2) + x % 2 && y == 2 * (y / 2) + y % 2;
    }
  }

  /** The double shift picks the s bits above the b offset bits. */
  lemma SetBits(address: nat, s: nat, b: nat)
    requires Geometry(s, b)
    ensures SetOf(address, s, b) == Low(Shr(address, b), s) < Pow2(s)
  {
    hide Low, Shl, Shr, Pow2;
    var k := 64 - b - s;
    LowOfShl(address, k, b + s);
    ShrOfShl(Low(address, b + s), k, b);
    ShrOfLow(address, b, s);
    LowBound(Shr(address, b), s);
    assert k + (b + s) == 64 && k + b == 64 - s;
  }

  /** Tag and set index together name the block of an address. */
  lemma SameBlock(x: nat, y: nat, s: nat, b: nat)
    requires Geometry(s, b)
    ensures TagOf(x, s, b) == TagOf(y, s, b) && SetOf(x, s, b) == SetOf(y, s, b)
      <==> Shr(x, b) == Shr(y, b)
  {
    SetBits(x, s, b);
    SetBits(y, s, b);
    ShrTwice(x, b, s);
    ShrTwice(y, b, s);
    HighAndLow(Shr(x, b), Shr(y, b), s);
  }
}
