/** The decoder's Huffman tables: building them and looking codes up in them. */
module ZHuffman {
  import opened Wrappers
  import opened Bits
  import opened CanonicalCode
  import opened BitReversal

  const FAST_BITS := 9
  const MAX_SYMBOLS := 288

  /** The reversal of the `bits` low bits of v: reverse 16 bits, then shift the rest away. */
  function BitReverse(v: nat, bits: nat): (r: nat)
    requires bits <= 16
    ensures r == Rev(v, bits)
  {
    RevPrefix(v, WORD_BITS, bits);
    Shr(Reversed(v), WORD_BITS - bits)
  }

  /** What a fast-table entry says about the streams whose nine low bits are x: size * 512 +
      symbol for a code of at most nine bits among the first n symbols, or 0 if there is none. */
  ghost predicate FastEntry(z: Sizes, n: nat, x: nat, b: nat)
    requires n <= |z|
  {
    if b == 0 then forall i: nat :: i < n && z[i] <= FAST_BITS ==> !Matches(z, x, i)
    else b % 512 < n && b / 512 == z[b % 512] <= FAST_BITS && Matches(z, x, b % 512)
  }

  class Huffman {
    const fast: array<nat>
    const firstcode: array<nat>
    const maxcode: array<nat>
    const firstsymbol: array<nat>
    const size: array<nat>
    const value: array<nat>

    constructor ()
      ensures Allocated() && fresh(Arrays())
    {
      fast := new nat[512];
      firstcode, maxcode, firstsymbol := new nat[16], new nat[17], new nat[16];
      size, value := new nat[MAX_SYMBOLS], new nat[MAX_SYMBOLS];
    }

    ghost function Arrays(): set<array<nat>> {
      {fast, firstcode, maxcode, firstsymbol, size, value}
    }

    ghost predicate Allocated() {
      && fast.Length == 512 && firstcode.Length == 16 && maxcode.Length == 17 && firstsymbol.Length == 16
      && size.Length == MAX_SYMBOLS && value.Length == MAX_SYMBOLS
      && fast !in {firstcode, maxcode, firstsymbol, size, value}
      && firstcode !in {maxcode, firstsymbol, size, value}
      && maxcode !in {firstsymbol, size, value} && firstsymbol !in {size, value} && size != value
    }

    /** The per-size tables are those of z, for sizes below t. */
    ghost predicate SizesBelow(z: Sizes, t: nat)
      requires Allocated() && t <= 16
      reads firstcode, maxcode, firstsymbol
    {
      && (forall s :: 1 <= s < t ==> firstcode[s] == First(z, s))
      && (forall s :: 1 <= s < t ==> maxcode[s] == Limit(z, s))
      && (forall s :: 1 <= s < t ==> firstsymbol[s] == FirstSymbol(z, s))
    }

    ghost predicate SizesFiled(z: Sizes)
      requires Allocated()
      reads firstcode, maxcode, firstsymbol
    {
      SizesBelow(z, 16) && maxcode[16] == 0x10000
    }

    /** The per-symbol tables hold the first n symbols of z. */
    ghost predicate SymbolsFiled(z: Sizes, n: nat)
      requires Allocated() && n <= |z| <= MAX_SYMBOLS
      reads size, value
    {
      forall i :: 0 <= i < n && z[i] > 0 ==>
        Slot(z, i) < MAX_SYMBOLS && size[Slot(z, i)] == z[i] && value[Slot(z, i)] == i
    }

    ghost predicate FastFiled(z: Sizes, n: nat)
      requires Allocated() && n <= |z|
      reads fast
    {
      forall x :: 0 <= x < 512 ==> FastEntry(z, n, x, fast[x])
    }

    /** The tables are complete for z; locked, for what that means takes many quantifiers. */
    ghost predicate Filled(z: Sizes)
      reads fast, firstcode, maxcode, firstsymbol, size, value
    {
      forall key: nat {:trigger Unlock(key)} :: Unlock(key) ==> Complete(z)
    }

    ghost predicate Complete(z: Sizes)
      reads fast, firstcode, maxcode, firstsymbol, size, value
    {
      && Allocated() && Bounded(z) && |z| <= MAX_SYMBOLS && Fits(z)
      && SizesFiled(z) && SymbolsFiled(z, |z|) && FastFiled(z, |z|)
    }
  }

  method CountSizes(sizelist: seq<nat>) returns (sizes: seq<nat>)
    requires Bounded(sizelist)
    ensures |sizes| == 17 && sizes[0] == 0 && forall s :: 1 <= s <= 16 ==> sizes[s] == Count(sizelist, s)
  {
    sizes := seq(17, _ => 0);
    for i := 0 to |sizelist|
      invariant |sizes| == 17 && forall s :: 1 <= s <= 16 ==> sizes[s] == CountTo(sizelist, i, s)
    {
      sizes := sizes[sizelist[i] := sizes[sizelist[i]] + 1];
    }
    sizes := sizes[0 := 0];
  }

  /** No size has more symbols than codes. */
  method CheckCounts(sizes: seq<nat>, ghost z: Sizes) returns (ok: bool)
    requires |sizes| == 17 && forall s :: 1 <= s <= 16 ==> sizes[s] == Count(z, s)
    ensures ok <==> forall s :: 1 <= s <= MAX_SIZE ==> sizes[s] <= Pow2(s)
    ensures !ok ==> !Fits(z)
  {
    for i := 1 to 16
      invariant forall s :: 1 <= s < i ==> sizes[s] <= Pow2(s)
    {
      if sizes[i] > Pow2(i) {
        assert Count(z, i) > 0 && End(z, i) > Pow2(i);
        return false;
      }
    }
    return true;
  }

  /** Files the entries of one size. */
  method AssignSize(h: Huffman, s: nat, code: nat, count: nat, k: nat, ghost z: Sizes)
    requires h.Allocated() && 1 <= s <= MAX_SIZE && |z| <= MAX_SYMBOLS && FitsTo(z, s - 1)
    requires code == First(z, s) && count == Count(z, s) && k == FirstSymbol(z, s) && h.SizesBelow(z, s)
    modifies h.firstcode, h.maxcode, h.firstsymbol
    ensures h.SizesBelow(z, s + 1)
  {
    var code16, k16, limit := code % 0x10000, k % 0x10000, Padded(code + count, s);
    assert code16 == First(z, s) && k16 == FirstSymbol(z, s) && limit == Limit(z, s) by {
      CodeIsShort(z, s);
    }
    h.firstcode[s], h.firstsymbol[s], h.maxcode[s] := code16, k16, limit;
  }

  lemma NextSize(z: Sizes, s: nat)
    requires s > 0
    ensures First(z, s + 1) == 2 * (First(z, s) + Count(z, s))
      && FirstSymbol(z, s + 1) == FirstSymbol(z, s) + Count(z, s)
  {}

  /** Assigns the first code of every size; fails exactly when the sizes do not fit. */
  method AssignSizes(h: Huffman, sizes: seq<nat>, ghost z: Sizes) returns (ok: bool, next_code: seq<nat>)
    requires h.Allocated() && |z| <= MAX_SYMBOLS
    requires |sizes| == 17 && forall s :: 1 <= s <= 16 ==> sizes[s] == Count(z, s)
    modifies h.firstcode, h.maxcode, h.firstsymbol
    ensures ok <==> Fits(z)
    ensures ok ==>
      h.SizesBelow(z, 16) && |next_code| == 16 && forall s :: 1 <= s <= MAX_SIZE ==> next_code[s] == First(z, s)
  {
    next_code := seq(16, _ => 0);
    var code, k := 0, 0;
    for i := 1 to 16
      invariant code == First(z, i) && k == FirstSymbol(z, i) && FitsTo(z, i - 1) && |next_code| == 16
      invariant forall s :: 1 <= s < i ==> next_code[s] == First(z, s)
      invariant h.SizesBelow(z, i)
    {
      next_code := next_code[i := code];
      if sizes[i] > 0 && code + sizes[i] - 1 >= Pow2(i) {
        assert Count(z, i) > 0 && End(z, i) > Pow2(i);
        return false, next_code;
      }
      AssignSize(h, i, code, sizes[i], k, z);
      NextSize(z, i);
      code := (code + sizes[i]) * 2;
      k := k + sizes[i];
    }
    return true, next_code;
  }

  /** The same, after a first look at the counts; and the sentinel. */
  method AssignCodes(h: Huffman, sizes: seq<nat>, ghost z: Sizes) returns (ok: bool, next_code: seq<nat>)
    requires h.Allocated() && |z| <= MAX_SYMBOLS
    requires |sizes| == 17 && forall s :: 1 <= s <= 16 ==> sizes[s] == Count(z, s)
    modifies h.firstcode, h.maxcode, h.firstsymbol
    ensures ok <==> Fits(z)
    ensures ok ==> h.SizesFiled(z)
    ensures ok ==> |next_code| == 16 && forall s :: 1 <= s <= MAX_SIZE ==> next_code[s] == First(z, s)
  {
    next_code := [];
    ok := CheckCounts(sizes, z);
    if !ok {
      return;
    }
    ok, next_code := AssignSizes(h, sizes, z);
    h.maxcode[16] := 0x10000;
  }

  /** The 16-bit fields lose nothing. */
  lemma CodeIsShort(z: Sizes, s: nat)
    requires 1 <= s <= MAX_SIZE && FitsTo(z, s - 1) && |z| <= MAX_SYMBOLS
    ensures First(z, s) < 0x10000 && FirstSymbol(z, s) <= |z|
  {
    FirstSymbolIsUsed(z, s);
    if s > 1 {
      EndFits(z, s - 1);
      Pow2Monotone(s - 1, 14);
      assert Pow2(14) == 0x4000;
    }
  }

  lemma NoMultipleBetween(x: nat, j: nat, m: nat)
    requires m > 0 && j < x < j + m
    ensures x % m != j % m
  {
    var q, r := j / m, j % m + (x - j);
    if r < m {
      DivideUnique(x, q, r, m);
    } else {
      MulDistributes(q, 1, m);
      DivideUnique(x, q + 1, r - m, m);
    }
  }

  lemma StepKeepsRemainder(j: nat, m: nat)
    requires m > 0
    ensures (j + m) % m == j % m
  {
    MulDistributes(j / m, 1, m);
    DivideUnique(j + m, j / m + 1, j % m, m);
  }

  /** Enters a short code at every index whose low bits are its reversal. */
  method FillFast(h: Huffman, s: nat, start: nat, fastv: nat)
    requires h.Allocated() && 1 <= s <= FAST_BITS && start < Pow2(s)
    modifies h.fast
    ensures forall x :: 0 <= x < 512 ==> h.fast[x] == if x % Pow2(s) == start then fastv else old(h.fast[x])
  {
    var j, m := start, Pow2(s);
    DivideUnique(start, 0, start, m);
    forall x: nat | x < start ensures x % m != start { DivideUnique(x, 0, x, m); }
    while j < 512
      invariant j % m == start
      invariant forall x :: 0 <= x < 512 && x < j ==> h.fast[x] == if x % m == start then fastv else old(h.fast[x])
      invariant forall x :: 0 <= x < 512 && j <= x ==> h.fast[x] == old(h.fast[x])
    {
      h.fast[j] := fastv;
      forall x: nat | j < x < j + m ensures x % m != start { NoMultipleBetween(x, j, m); }
      StepKeepsRemainder(j, m);
      j := j + m;
    }
  }

  /** Adding symbol i to the fast table. */
  lemma FastNext(z: Sizes, i: nat, x: nat, before: nat, after: nat)
    requires Fits(z) && Bounded(z) && |z| <= MAX_SYMBOLS && i < |z| && x < 512 && FastEntry(z, i, x, before)
    requires after == if 0 < z[i] <= FAST_BITS && Low(x, z[i]) == Rev(Code(z, i), z[i]) then z[i] * 512 + i else before
    ensures FastEntry(z, i + 1, x, after)
  {
    assert (after / 512 == z[i] && after % 512 == i) || after == before;
    if 0 < z[i] <= FAST_BITS {
      MatchIsReversal(z, x, i);
      if before != 0 && Matches(z, x, i) { MatchUnique(z, x, i, before % 512); }
    }
  }

  /** Files a used symbol by its slot. */
  method FileSlot(h: Huffman, s: nat, i: nat, code: nat, ghost z: Sizes)
    requires h.Allocated() && Bounded(z) && |z| <= MAX_SYMBOLS && i < |z| && s == z[i] > 0 && code == Code(z, i)
    requires h.SizesFiled(z) && h.SymbolsFiled(z, i)
    modifies h.size, h.value
    ensures h.SymbolsFiled(z, i + 1)
  {
    var c := code - h.firstcode[s] + h.firstsymbol[s];
    assert c == Slot(z, i);
    forall j | 0 <= j <= i && z[j] > 0 ensures Slot(z, j) < |z| && (Slot(z, j) == c ==> j == i) {
      SlotsDistinct(z, j, i);
    }
    h.size[c] := s % 0x100;
    h.value[c] := i % 0x10000;
  }

  /** Files a used symbol in the fast table, if its code is short enough. */
  method FileFast(h: Huffman, s: nat, i: nat, code: nat, ghost z: Sizes)
    requires h.Allocated() && Fits(z) && Bounded(z) && |z| <= MAX_SYMBOLS && i < |z| && s == z[i] > 0
      && code == Code(z, i)
    requires h.FastFiled(z, i)
    modifies h.fast
    ensures h.FastFiled(z, i + 1)
  {
    ghost var before := h.fast[..];
    assert forall x :: 0 <= x < 512 ==> FastEntry(z, i, x, before[x]);
    var fastv := (s * 512 + i) % 0x10000;
    assert fastv == s * 512 + i;
    var start := BitReverse(code, s);
    assert start == Rev(Code(z, i), z[i]);
    if s <= FAST_BITS {
      FillFast(h, s, start, fastv);
    }
    assert forall x :: 0 <= x < 512 ==>
      h.fast[x] == if s <= FAST_BITS && x % Pow2(s) == start then fastv else before[x];
    forall x | 0 <= x < 512 ensures FastEntry(z, i + 1, x, h.fast[x]) {
      ShrIsQuotient(x, s);
      FastNext(z, i, x, before[x], h.fast[x]);
    }
  }

  /** Files symbol i, if it is used. */
  method FileSymbol(h: Huffman, sizelist: seq<nat>, i: nat, next_code0: seq<nat>) returns (next_code: seq<nat>)
    requires h.Allocated() && Fits(sizelist) && Bounded(sizelist) && |sizelist| <= MAX_SYMBOLS && i < |sizelist|
    requires h.SizesFiled(sizelist) && h.SymbolsFiled(sizelist, i) && h.FastFiled(sizelist, i)
    requires NextCodes(sizelist, i, next_code0)
    modifies h.fast, h.size, h.value
    ensures h.SizesFiled(sizelist) && h.SymbolsFiled(sizelist, i + 1) && h.FastFiled(sizelist, i + 1)
    ensures NextCodes(sizelist, i + 1, next_code)
  {
    var s := sizelist[i];
    next_code := next_code0;
    if s != 0 {
      FileSlot(h, s, i, next_code[s], sizelist);
      FileFast(h, s, i, next_code[s], sizelist);
      next_code := next_code[s := next_code[s] + 1];
    } else {
      forall x | 0 <= x < 512 ensures FastEntry(sizelist, i + 1, x, h.fast[x]) {
        FastNext(sizelist, i, x, h.fast[x], h.fast[x]);
      }
    }
  }

  /** The next free code of every size after i symbols. */
  ghost predicate NextCodes(z: Sizes, i: nat, next_code: seq<nat>)
    requires i <= |z|
  {
    |next_code| == 16 && forall s :: 1 <= s <= MAX_SIZE ==> next_code[s] == First(z, s) + CountTo(z, i, s)
  }

  method FileSymbols(h: Huffman, sizelist: seq<nat>, next_code0: seq<nat>)
    requires h.Allocated() && Fits(sizelist) && Bounded(sizelist) && |sizelist| <= MAX_SYMBOLS
    requires h.SizesFiled(sizelist) && NextCodes(sizelist, 0, next_code0) && forall x :: 0 <= x < 512 ==> h.fast[x] == 0
    modifies h.fast, h.size, h.value
    ensures h.Filled(sizelist)
  {
    var next_code := next_code0;
    for i := 0 to |sizelist|
      invariant h.SizesFiled(sizelist) && h.SymbolsFiled(sizelist, i) && h.FastFiled(sizelist, i)
      invariant NextCodes(sizelist, i, next_code)
    {
      next_code := FileSymbol(h, sizelist, i, next_code);
    }
  }

  /** Builds the tables of a size list; fails exactly when the sizes violate the Kraft
      inequality. */
  method BuildHuffman(h: Huffman, sizelist: seq<nat>) returns (ok: bool)
    requires h.Allocated() && Bounded(sizelist) && |sizelist| <= MAX_SYMBOLS
    modifies h.fast, h.firstcode, h.maxcode, h.firstsymbol, h.size, h.value
    ensures ok <==> Kraft(sizelist)
    ensures ok ==> h.Filled(sizelist)
  {
    FitsIsKraft(sizelist);
    forall x | 0 <= x < 512 {
      h.fast[x] := 0;
    }
    var sizes := CountSizes(sizelist);
    var next_code;
    ok, next_code := AssignCodes(h, sizes, sizelist);
    if ok {
      FileSymbols(h, sizelist, next_code);
    }
  }
}
