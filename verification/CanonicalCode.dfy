/** Canonical Huffman codes (section 3.2.2 of RFC 1951) over a list of code sizes.

    A size of zero means that the symbol is not used.  A stream of bits is a number whose low
    bits come first; past its top it reads as zeros. */
module CanonicalCode {
  import opened Wrappers
  import opened Bits

  type Sizes = seq<nat>

  const MAX_SIZE := 15

  ghost predicate Bounded(z: Sizes) {
    forall i :: 0 <= i < |z| ==> z[i] <= MAX_SIZE
  }

  /** How many of the first n symbols have size s. */
  function CountTo(z: Sizes, n: nat, s: nat): nat
    requires n <= |z|
  {
    if n == 0 then 0 else CountTo(z, n - 1, s) + if z[n - 1] == s then 1 else 0
  }

  function Count(z: Sizes, s: nat): nat {
    CountTo(z, |z|, s)
  }

  /** The first code of size s, and the number just past the last one. */
  function First(z: Sizes, s: nat): nat
    requires s > 0
  {
    if s == 1 then 0 else 2 * (First(z, s - 1) + Count(z, s - 1))
  }

  function End(z: Sizes, s: nat): nat
    requires s > 0
  {
    First(z, s) + Count(z, s)
  }

  function Code(z: Sizes, i: nat): nat
    requires i < |z| && z[i] > 0
  {
    First(z, z[i]) + CountTo(z, i, z[i])
  }

  /** A code of size s as the leading bits of 16. */
  function Padded(c: nat, s: nat): nat
    requires s <= 16
  {
    c * Pow2(16 - s)
  }

  /** The codes of sizes up to s, padded to 16 bits, are the numbers below this one. */
  function Limit(z: Sizes, s: nat): nat
    requires s <= 16
  {
    if s == 0 then 0 else Padded(End(z, s), s)
  }

  /** Every size in use up to t has room for its codes. */
  ghost predicate FitsTo(z: Sizes, t: nat) {
    forall s {:trigger End(z, s)} :: 1 <= s <= t && Count(z, s) > 0 ==> End(z, s) <= Pow2(s)
  }

  ghost predicate Fits(z: Sizes) {
    FitsTo(z, MAX_SIZE)
  }

  /** Symbols are numbered by size first: where size s starts, and where symbol i is. */
  function FirstSymbol(z: Sizes, s: nat): nat
    requires s > 0
  {
    if s == 1 then 0 else FirstSymbol(z, s - 1) + Count(z, s - 1)
  }

  function Slot(z: Sizes, i: nat): nat
    requires i < |z| && z[i] > 0
  {
    FirstSymbol(z, z[i]) + CountTo(z, i, z[i])
  }

  // ----- which size lists fit -----

  /** Sum of 2^(s - size) over the symbols of sizes 1 to s among the first n. */
  function KraftTo(z: Sizes, n: nat, s: nat): nat
    requires n <= |z|
  {
    if n == 0 then 0
    else KraftTo(z, n - 1, s) + if 0 < z[n - 1] <= s then Pow2(s - z[n - 1]) else 0
  }

  /** The Kraft inequality: the sum of 2^-size over the used symbols is at most one. */
  ghost predicate Kraft(z: Sizes) {
    KraftTo(z, |z|, MAX_SIZE) <= Pow2(MAX_SIZE)
  }

  lemma {:induction false} KraftStep(z: Sizes, n: nat, s: nat)
    requires n <= |z|
    ensures KraftTo(z, n, s + 1) == 2 * KraftTo(z, n, s) + CountTo(z, n, s + 1)
  {
    if n > 0 { KraftStep(z, n - 1, s); }
  }

  lemma {:induction false} KraftZero(z: Sizes, n: nat)
    requires n <= |z|
    ensures KraftTo(z, n, 0) == 0
  {
    if n > 0 { KraftZero(z, n - 1); }
  }

  lemma {:induction false} EndIsKraft(z: Sizes, s: nat)
    requires s > 0
    ensures End(z, s) == KraftTo(z, |z|, s)
  {
    KraftStep(z, |z|, s - 1);
    if s == 1 { KraftZero(z, |z|); } else { EndIsKraft(z, s - 1); }
  }

  lemma {:induction false} EndGrows(z: Sizes, s: nat, t: nat)
    requires 0 < s <= t
    ensures End(z, s) * Pow2(t - s) <= End(z, t)
    decreases t
  {
    if s < t {
      EndGrows(z, s, t - 1);
      assert Pow2(t - s) == 2 * Pow2(t - 1 - s);
      MulAssociates(End(z, s), Pow2(t - 1 - s), 2);
    }
  }

  lemma {:induction false} EndFits(z: Sizes, s: nat)
    requires FitsTo(z, s) && s > 0
    ensures End(z, s) <= Pow2(s)
  {
    if Count(z, s) == 0 && s > 1 { EndFits(z, s - 1); }
  }

  lemma MulCancels(a: nat, b: nat, p: nat)
    requires p > 0 && a * p <= b * p
    ensures a <= b
  {
    if a > b {
      MulAtLeast(a - b, p);
      MulDistributes(a - b, b, p);
    }
  }

  /** A size list fits exactly when it satisfies the Kraft inequality. */
  lemma FitsIsKraft(z: Sizes)
    ensures Fits(z) <==> Kraft(z)
  {
    EndIsKraft(z, MAX_SIZE);
    if Fits(z) { EndFits(z, MAX_SIZE); }
    if End(z, MAX_SIZE) <= Pow2(MAX_SIZE) {
      forall s | 1 <= s <= MAX_SIZE ensures End(z, s) <= Pow2(s) {
        EndGrows(z, s, MAX_SIZE);
        Pow2Add(s, MAX_SIZE - s);
        MulCancels(End(z, s), Pow2(s), Pow2(MAX_SIZE - s));
      }
    }
  }

  // ----- the tiling -----

  /** The codes of size s, padded to 16 bits, tile [Limit(s - 1), Limit(s)). */
  lemma Tiling(z: Sizes, s: nat, k: nat)
    requires 1 <= s <= MAX_SIZE
    ensures First(z, s) <= k / Pow2(16 - s) < End(z, s) <==> Limit(z, s - 1) <= k < Limit(z, s)
    ensures Limit(z, s - 1) <= Limit(z, s)
  {
    var p := Pow2(16 - s);
    assert Limit(z, s - 1) == First(z, s) * p by {
      if s > 1 {
        assert Pow2(16 - (s - 1)) == 2 * p;
        MulAssociates(End(z, s - 1), 2, p);
      }
    }
    AtLeastQuotient(k, First(z, s), p);
    AtLeastQuotient(k, End(z, s), p);
    MulDistributes(First(z, s), Count(z, s), p);
  }

  lemma AtLeastQuotient(k: nat, a: nat, p: nat)
    requires p > 0
    ensures a <= k / p <==> a * p <= k
  {
    var q, r := k / p, k % p;
    assert k == q * p + r;
    if a <= q { MulDistributes(a, q - a, p); } else { MulAtLeast(a - q, p); MulDistributes(a - q, q, p); }
  }

  lemma {:induction false} LimitsAscend(z: Sizes, s: nat, t: nat)
    requires s <= t <= MAX_SIZE
    ensures Limit(z, s) <= Limit(z, t)
    decreases t
  {
    if s < t {
      LimitsAscend(z, s, t - 1);
      Tiling(z, t, 0);
    }
  }

  // ----- decoding -----

  /** The stream v starts with the code of symbol i, most significant bit first. */
  ghost predicate Matches(z: Sizes, v: nat, i: nat) {
    i < |z| && 0 < z[i] <= MAX_SIZE && Rev(v, z[i]) == Code(z, i)
  }

  lemma {:induction false} CountStrict(z: Sizes, i: nat, j: nat, s: nat)
    requires i < j <= |z| && z[i] == s
    ensures CountTo(z, i, s) < CountTo(z, j, s)
    decreases j
  {
    if i < j - 1 { CountStrict(z, i, j - 1, s); }
  }

  lemma MatchInTile(z: Sizes, v: nat, i: nat)
    requires Matches(z, v, i)
    ensures Limit(z, z[i] - 1) <= Rev(v, 16) < Limit(z, z[i])
  {
    CountStrict(z, i, |z|, z[i]);
    RevPrefix(v, 16, z[i]);
    ShrIsQuotient(Rev(v, 16), 16 - z[i]);
    Tiling(z, z[i], Rev(v, 16));
  }

  /** No stream starts with two different codes. */
  lemma MatchUnique(z: Sizes, v: nat, i: nat, j: nat)
    requires Matches(z, v, i) && Matches(z, v, j)
    ensures i == j
  {
    MatchInTile(z, v, i);
    MatchInTile(z, v, j);
    if z[i] < z[j] { LimitsAscend(z, z[i], z[j] - 1); }
    if z[j] < z[i] { LimitsAscend(z, z[j], z[i] - 1); }
    if i < j { CountStrict(z, i, j, z[i]); }
    if j < i { CountStrict(z, j, i, z[i]); }
  }

  /** The symbol of size s with rank r among those of its size. */
  lemma {:induction false} SymbolOfRank(z: Sizes, n: nat, s: nat, r: nat) returns (i: nat)
    requires n <= |z| && r < CountTo(z, n, s)
    ensures i < n && z[i] == s && CountTo(z, i, s) == r
  {
    if r < CountTo(z, n - 1, s) { i := SymbolOfRank(z, n - 1, s, r); } else { i := n - 1; }
  }

  /** The 16 bits that v starts with, the first one leading, fall into tile s; locked. */
  ghost predicate InTile(z: Sizes, v: nat, s: nat)
    requires 1 <= s <= MAX_SIZE
  {
    forall key: nat {:trigger Unlock(key)} :: Unlock(key) ==> Limit(z, s - 1) <= Rev(v, WORD_BITS) < Limit(z, s)
  }

  lemma MatchInside(z: Sizes, v: nat, s: nat) returns (i: nat)
    requires 1 <= s <= MAX_SIZE && InTile(z, v, s)
    ensures Matches(z, v, i) && z[i] == s && CountTo(z, i, s) == Rev(v, s) - First(z, s)
  {
    assert Unlock(0);
    Tiling(z, s, Rev(v, WORD_BITS));
    RevPrefix(v, WORD_BITS, s);
    ShrIsQuotient(Rev(v, WORD_BITS), 16 - s);
    i := SymbolOfRank(z, |z|, s, Rev(v, s) - First(z, s));
  }

  /** A stream starts with some code exactly when its first 16 bits lie below the last limit. */
  lemma MatchExists(z: Sizes, v: nat)
    ensures (exists i: nat :: Matches(z, v, i)) <==> Rev(v, 16) < Limit(z, MAX_SIZE)
  {
    if i: nat :| Matches(z, v, i) {
      MatchInTile(z, v, i);
      LimitsAscend(z, z[i], MAX_SIZE);
    }
    if Rev(v, 16) < Limit(z, MAX_SIZE) {
      var s := TileOf(z, Rev(v, 16), MAX_SIZE);
      var i := MatchInside(z, v, s);
    }
  }

  /** The tile that k falls into. */
  lemma {:induction false} TileOf(z: Sizes, k: nat, t: nat) returns (s: nat)
    requires 1 <= t <= MAX_SIZE && k < Limit(z, t)
    ensures 1 <= s <= t && Limit(z, s - 1) <= k < Limit(z, s)
  {
    s := t;
    if t > 1 && k < Limit(z, t - 1) { s := TileOf(z, k, t - 1); }
  }

  lemma MatchLowBits(z: Sizes, v: nat, n: nat, i: nat)
    requires i < |z| && z[i] <= n
    ensures Matches(z, Low(v, n), i) <==> Matches(z, v, i)
  {
    LowLow(v, z[i], n);
    RevLowBits(Low(v, n), v, z[i]);
  }

  // ----- encoding -----

  /** The stream that starts with the code of symbol i and goes on with `rest`. */
  function Emit(z: Sizes, i: nat, rest: nat): nat
    requires i < |z| && z[i] > 0
  {
    Front(Rev(Code(z, i), z[i]), z[i], rest)
  }

  /** A code is found again at the head of the stream it was put in front of. */
  lemma EmitMatches(z: Sizes, i: nat, rest: nat)
    requires Fits(z) && i < |z| && 0 < z[i] <= MAX_SIZE
    ensures Matches(z, Emit(z, i, rest), i) && Shr(Emit(z, i, rest), z[i]) == rest
  {
    var s, c := z[i], Code(z, i);
    CountStrict(z, i, |z|, s);
    EndFits(z, s);
    var v := Emit(z, i, rest);
    InFront(Rev(c, s), s, rest);
    ShrSmall(Rev(c, s), s);
    RevLowBits(v, Rev(c, s), s);
    RevRev(c, s);
  }

  /** No code is a prefix of another. */
  lemma PrefixFree(z: Sizes, i: nat, j: nat)
    requires Fits(z) && i < |z| && j < |z| && 0 < z[i] <= z[j] <= MAX_SIZE && i != j
    ensures Shr(Code(z, j), z[j] - z[i]) != Code(z, i)
  {
    var v := Emit(z, j, 0);
    EmitMatches(z, j, 0);
    RevPrefix(v, z[j], z[i]);
    if Rev(v, z[i]) == Code(z, i) { MatchUnique(z, v, i, j); }
  }

  // ----- numbering -----

  lemma {:induction false} FirstSymbolGrows(z: Sizes, s: nat, t: nat)
    requires 0 < s < t
    ensures FirstSymbol(z, s) + Count(z, s) <= FirstSymbol(z, t)
    decreases t
  {
    if s < t - 1 { FirstSymbolGrows(z, s, t - 1); }
  }

  lemma {:induction false} CountUpTo(z: Sizes, n: nat, s: nat)
    requires n <= |z| && s > 0
    ensures UsedTo(z, n, s) == if s == 1 then 0 else UsedTo(z, n, s - 1) + CountTo(z, n, s - 1)
  {
    if n > 0 { CountUpTo(z, n - 1, s); }
  }

  /** How many of the first n symbols have a size from 1 to s - 1. */
  function UsedTo(z: Sizes, n: nat, s: nat): (r: nat)
    requires n <= |z|
    ensures r <= n
  {
    if n == 0 then 0 else UsedTo(z, n - 1, s) + if 0 < z[n - 1] < s then 1 else 0
  }

  lemma {:induction false} FirstSymbolIsUsed(z: Sizes, s: nat)
    requires s > 0
    ensures FirstSymbol(z, s) == UsedTo(z, |z|, s)
  {
    CountUpTo(z, |z|, s);
    if s > 1 { FirstSymbolIsUsed(z, s - 1); }
  }

  /** Slots are in range, and different symbols have different ones. */
  lemma SlotsDistinct(z: Sizes, i: nat, j: nat)
    requires i < |z| && j < |z| && z[i] > 0 && z[j] > 0
    ensures Slot(z, i) < |z|
    ensures Slot(z, i) == Slot(z, j) ==> i == j
  {
    CountStrict(z, i, |z|, z[i]);
    CountStrict(z, j, |z|, z[j]);
    FirstSymbolIsUsed(z, z[i] + 1);
    if z[i] < z[j] { FirstSymbolGrows(z, z[i], z[j]); }
    if z[j] < z[i] { FirstSymbolGrows(z, z[j], z[i]); }
    if i < j && z[i] == z[j] { CountStrict(z, i, j, z[i]); }
    if j < i && z[i] == z[j] { CountStrict(z, j, i, z[i]); }
  }

  /** A short code matches exactly the streams whose low bits are its reversal. */
  lemma MatchIsReversal(z: Sizes, v: nat, i: nat)
    requires Fits(z) && i < |z| && 0 < z[i] <= MAX_SIZE
    ensures Code(z, i) < Pow2(z[i])
    ensures Matches(z, v, i) <==> Low(v, z[i]) == Rev(Code(z, i), z[i])
  {
    var s, c := z[i], Code(z, i);
    CountStrict(z, i, |z|, s);
    EndFits(z, s);
    var w := Low(v, s);
    ShrSmall(w, s);
    RevLowBits(v, w, s);
    RevRev(c, s);
    RevRev(w, s);
  }
}
