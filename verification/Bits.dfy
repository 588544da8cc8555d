/** Powers of two, bit strings as numbers, and bit reversal. */
module Bits {
  function Pow2(n: nat): (r: nat)
    ensures r > 0
  {
    if n == 0 then 1 else 2 * Pow2(n - 1)
  }

  lemma {:induction false} Pow2Add(a: nat, b: nat)
    ensures Pow2(a + b) == Pow2(a) * Pow2(b)
  {
    if a > 0 { Pow2Add(a - 1, b); }
  }

  lemma Pow2Values()
    ensures Pow2(1) == 2 && Pow2(2) == 4 && Pow2(3) == 8 && Pow2(4) == 16 && Pow2(5) == 32 && Pow2(7) == 128
    ensures Pow2(8) == 0x100 && Pow2(9) == 0x200 && Pow2(14) == 0x4000 && Pow2(16) == 0x10000
  {}

  lemma {:induction false} Pow2Monotone(a: nat, b: nat)
    requires a <= b
    ensures Pow2(a) <= Pow2(b)
    decreases b
  {
    if a < b { Pow2Monotone(a, b - 1); }
  }

  lemma {:induction false} MulAtLeast(a: nat, m: nat)
    requires a > 0
    ensures a * m >= m
  {
    if a > 1 {
      MulAtLeast(a - 1, m);
      assert a * m == (a - 1) * m + m;
    }
  }

  lemma DivideUnique(x: int, q: int, r: int, m: nat)
    requires 0 <= r < m && x == q * m + r
    ensures x / m == q && x % m == r
  {
    var q', r' := x / m, x % m;
    var d := q - q';
    assert d * m == q * m - q' * m;
    assert (-d) * m == q' * m - q * m;
    if d > 0 { MulAtLeast(d, m); }
    if d < 0 { MulAtLeast(-d, m); }
  }

  lemma MulDistributes(a: int, b: int, c: int)
    ensures (a + b) * c == a * c + b * c
  {}

  lemma MulAssociates(a: int, b: int, c: int)
    ensures a * b * c == a * (b * c)
  {}

  // ----- shifting -----

  /** Shifting n places to the left or right, one place at a time. */
  function Shl(x: nat, n: nat): nat {
    if n == 0 then x else 2 * Shl(x, n - 1)
  }

  function Shr(x: nat, n: nat): nat {
    if n == 0 then x else Shr(x / 2, n - 1)
  }

  /** How many bits are reversed at a time. */
  const WORD_BITS := 16

  /** The n low bits of x. */
  function Low(x: nat, n: nat): (r: nat)
    ensures r < Pow2(n)
  {
    if n == 0 then 0 else x % 2 + 2 * Low(x / 2, n - 1)
  }

  lemma {:induction false} SplitAt(x: nat, n: nat)
    ensures x == Low(x, n) + Shl(Shr(x, n), n)
  {
    if n > 0 { SplitAt(x / 2, n - 1); }
  }

  lemma {:induction false} ShlIsProduct(x: nat, n: nat)
    ensures Shl(x, n) == x * Pow2(n)
  {
    if n > 0 {
      ShlIsProduct(x, n - 1);
      MulAssociates(x, 2, Pow2(n - 1));
    }
  }

  /** Shifting and masking are dividing by a power of two and its remainder. */
  lemma ShrIsQuotient(x: nat, n: nat)
    ensures Shr(x, n) == x / Pow2(n) && Low(x, n) == x % Pow2(n)
  {
    SplitAt(x, n);
    ShlIsProduct(Shr(x, n), n);
    DivideUnique(x, Shr(x, n), Low(x, n), Pow2(n));
  }

  lemma {:induction false} ShrShr(x: nat, a: nat, b: nat)
    ensures Shr(Shr(x, a), b) == Shr(x, a + b)
  {
    if a > 0 { ShrShr(x / 2, a - 1, b); }
  }

  lemma ShrOn(x: nat, a: nat, b: nat, c: nat)
    requires c == a + b
    ensures Shr(Shr(x, a), b) == Shr(x, c)
  {
    ShrShr(x, a, b);
  }

  lemma {:induction false} LowLow(x: nat, m: nat, n: nat)
    requires m <= n
    ensures Low(Low(x, n), m) == Low(x, m)
  {
    if m > 0 { LowLow(x / 2, m - 1, n - 1); }
  }

  lemma {:induction false} ShrLow(x: nat, m: nat, n: nat)
    ensures Low(x, m + n) == Low(x, m) + Shl(Low(Shr(x, m), n), m)
    ensures Shr(Low(x, m + n), m) == Low(Shr(x, m), n)
  {
    if m > 0 { ShrLow(x / 2, m - 1, n); }
  }

  /** The n bits of x, and then the stream `rest`. */
  function Front(x: nat, n: nat, rest: nat): nat {
    x + Shl(rest, n)
  }

  /** Bits put in front of a stream are read back from it. */
  lemma {:induction false} InFront(x: nat, n: nat, rest: nat)
    requires x < Pow2(n)
    ensures Low(Front(x, n, rest), n) == x && Shr(Front(x, n, rest), n) == rest
  {
    if n > 0 {
      assert (x + Shl(rest, n)) / 2 == x / 2 + Shl(rest, n - 1);
      InFront(x / 2, n - 1, rest);
    }
  }

  lemma {:induction false} ShlBit(b: nat, n: nat)
    requires b < 2
    ensures Shl(b, n) == if b == 0 then 0 else Pow2(n)
  {
    if n > 0 { ShlBit(b, n - 1); }
  }

  lemma {:induction false} ShlShl(x: nat, a: nat, b: nat)
    ensures Shl(Shl(x, a), b) == Shl(x, a + b)
  {
    if b > 0 { ShlShl(x, a, b - 1); }
  }

  /** A number shifted in front of r does not disturb what is shifted out of r. */
  lemma {:induction false} ShrAdd(x: nat, r: nat, n: nat)
    ensures Shr(Shl(x, n) + r, n) == x + Shr(r, n)
  {
    if n > 0 {
      assert (Shl(x, n) + r) / 2 == Shl(x, n - 1) + r / 2;
      ShrAdd(x, r / 2, n - 1);
    }
  }

  lemma {:induction false} ShrSmall(x: nat, n: nat)
    requires x < Pow2(n)
    ensures Shr(x, n) == 0 && Low(x, n) == x
  {
    if n > 0 { ShrSmall(x / 2, n - 1); }
  }

  // ----- reversal -----

  /** The n low bits of v in reverse order. */
  function Rev(v: nat, n: nat): (r: nat)
    ensures r < Pow2(n)
  {
    if n == 0 then 0
    else
      ShlBit(v % 2, n - 1);
      Shl(v % 2, n - 1) + Rev(v / 2, n - 1)
  }

  /** The leading s bits of a reversed string are the reversal of its s low bits. */
  lemma {:induction false} RevPrefix(v: nat, n: nat, s: nat)
    requires s <= n
    ensures Shr(Rev(v, n), n - s) == Rev(v, s)
    decreases s
  {
    if s == 0 {
      ShrSmall(Rev(v, n), n);
    } else {
      RevPrefix(v / 2, n - 1, s - 1);
      ShlShl(v % 2, s - 1, n - s);
      ShrAdd(Shl(v % 2, s - 1), Rev(v / 2, n - 1), n - s);
    }
  }

  /** Reversal looks at the n low bits only. */
  lemma {:induction false} RevLowBits(v: nat, w: nat, n: nat)
    requires Low(v, n) == Low(w, n)
    ensures Rev(v, n) == Rev(w, n)
  {
    if n > 0 { RevLowBits(v / 2, w / 2, n - 1); }
  }

  /** Adding a bit above the n low ones puts it in front of the reversal. */
  lemma {:induction false} RevTop(v: nat, b: nat, n: nat)
    requires v < Pow2(n) && b < 2
    ensures Rev(v + Shl(b, n), n + 1) == 2 * Rev(v, n) + b
  {
    if n > 0 {
      var w := v + Shl(b, n);
      assert w % 2 == v % 2 && w / 2 == v / 2 + Shl(b, n - 1);
      RevTop(v / 2, b, n - 1);
    }
  }

  /** Reversing twice gives the number back. */
  lemma {:induction false} RevRev(v: nat, n: nat)
    requires v < Pow2(n)
    ensures Rev(Rev(v, n), n) == v
  {
    if n > 0 {
      RevRev(v / 2, n - 1);
      RevTop(Rev(v / 2, n - 1), v % 2, n - 1);
    }
  }
}
