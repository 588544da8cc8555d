/** The mask-and-shift bit reversal on 16-bit words, and its meaning on numbers. */
module BitReversal {
  import opened Bits

  /** Swaps neighbouring bits, then pairs, then nibbles, then bytes. */
  function SwapFields(n0: bv16): bv16 {
    var n1 := ((n0 & 0xAAAA) >> 1) | ((n0 & 0x5555) << 1);
    var n2 := ((n1 & 0xCCCC) >> 2) | ((n1 & 0x3333) << 2);
    var n3 := ((n2 & 0xF0F0) >> 4) | ((n2 & 0x0F0F) << 4);
    ((n3 & 0xFF00) >> 8) | ((n3 & 0x00FF) << 8)
  }

  function Mask(k: nat): bv16
    requires k < 16
  {
    if k < 8 then
      if k == 0 then 1 else if k == 1 then 2 else if k == 2 then 4 else if k == 3 then 8
      else if k == 4 then 0x10 else if k == 5 then 0x20 else if k == 6 then 0x40 else 0x80
    else
      if k == 8 then 0x100 else if k == 9 then 0x200 else if k == 10 then 0x400 else if k == 11 then 0x800
      else if k == 12 then 0x1000 else if k == 13 then 0x2000 else if k == 14 then 0x4000 else 0x8000
  }

  /** The bits of a word, lowest first. */
  function BitsOf(w: bv16): (b: seq<bool>)
    ensures |b| == 16
  {
    seq(16, k requires 0 <= k < 16 => w & Mask(k) != 0)
  }

  /** Bit k of r is bit 15 - k of w. */
  predicate Mirrored(r: bv16, w: bv16) {
    && (r & 1 != 0) == (w & 0x8000 != 0) && (r & 2 != 0) == (w & 0x4000 != 0) && (r & 4 != 0) == (w & 0x2000 != 0)
       && (r & 8 != 0) == (w & 0x1000 != 0)
    && (r & 0x10 != 0) == (w & 0x800 != 0) && (r & 0x20 != 0) == (w & 0x400 != 0)
       && (r & 0x40 != 0) == (w & 0x200 != 0) && (r & 0x80 != 0) == (w & 0x100 != 0)
    && (r & 0x100 != 0) == (w & 0x80 != 0) && (r & 0x200 != 0) == (w & 0x40 != 0)
       && (r & 0x400 != 0) == (w & 0x20 != 0) && (r & 0x800 != 0) == (w & 0x10 != 0)
    && (r & 0x1000 != 0) == (w & 8 != 0) && (r & 0x2000 != 0) == (w & 4 != 0) && (r & 0x4000 != 0) == (w & 2 != 0)
       && (r & 0x8000 != 0) == (w & 1 != 0)
  }

  lemma SwapFieldsMirrors(w: bv16)
    ensures Mirrored(SwapFields(w), w)
  {}

  lemma MirroredBit(r: bv16, w: bv16, k: nat)
    requires Mirrored(r, w) && k < 16
    ensures BitsOf(r)[k] == BitsOf(w)[15 - k]
  {}

  function Backwards(b: seq<bool>): (r: seq<bool>)
    ensures |r| == |b|
  {
    if b == [] then [] else Backwards(b[1..]) + [b[0]]
  }

  lemma {:induction false} BackwardsAt(b: seq<bool>, k: nat)
    requires k < |b|
    ensures Backwards(b)[k] == b[|b| - 1 - k]
  {
    if k < |b| - 1 { BackwardsAt(b[1..], k); }
  }

  /** The number with the given bits. */
  function FromBits(b: seq<bool>): nat {
    if b == [] then 0 else (if b[0] then 1 else 0) + 2 * FromBits(b[1..])
  }

  lemma {:induction false} FromBitsSnoc(b: seq<bool>, top: bool)
    ensures FromBits(b + [top]) == FromBits(b) + if top then Pow2(|b|) else 0
  {
    if b == [] {
      assert ([top])[1..] == [];
    } else {
      FromBitsSnoc(b[1..], top);
      assert (b + [top])[1..] == b[1..] + [top];
    }
  }

  lemma {:induction false} BackwardsIsRev(b: seq<bool>)
    ensures FromBits(Backwards(b)) == Rev(FromBits(b), |b|)
  {
    if b != [] {
      BackwardsIsRev(b[1..]);
      FromBitsSnoc(Backwards(b[1..]), b[0]);
      ShlBit(FromBits(b) % 2, |b| - 1);
    }
  }

  lemma MirroredIsRev(r: bv16, w: bv16)
    requires Mirrored(r, w)
    ensures FromBits(BitsOf(r)) == Rev(FromBits(BitsOf(w)), 16)
  {
    var a, b := BitsOf(r), BitsOf(w);
    forall k | 0 <= k < 16 ensures a[k] == Backwards(b)[k] {
      MirroredBit(r, w, k);
      BackwardsAt(b, k);
    }
    assert a == Backwards(b);
    BackwardsIsRev(b);
  }

  /** The swaps reverse the number that a word stands for. */
  lemma SwapFieldsIsRev(w: bv16)
    ensures FromBits(BitsOf(SwapFields(w))) == Rev(FromBits(BitsOf(w)), 16)
  {
    SwapFieldsMirrors(w);
    MirroredIsRev(SwapFields(w), w);
  }

  // ----- numbers as words -----

  /** The n low bits of v, lowest first. */
  function BitsBelow(v: nat, n: nat): (b: seq<bool>)
    ensures |b| == n
  {
    if n == 0 then [] else [v % 2 == 1] + BitsBelow(v / 2, n - 1)
  }

  lemma {:induction false} RevOfBits(v: nat, n: nat)
    ensures Rev(FromBits(BitsBelow(v, n)), n) == Rev(v, n)
  {
    if n > 0 {
      var b := BitsBelow(v, n);
      assert b[1..] == BitsBelow(v / 2, n - 1) && b[0] == (v % 2 == 1);
      var w := FromBits(b);
      assert w % 2 == v % 2 && w / 2 == FromBits(b[1..]);
      RevOfBits(v / 2, n - 1);
    }
  }

  function Flag(b: bool, mask: bv16): bv16 {
    if b then mask else 0
  }

  function LowFlags(b: seq<bool>): bv16
    requires |b| == 16
  {
    Flag(b[0], 1) | Flag(b[1], 2) | Flag(b[2], 4) | Flag(b[3], 8) |
    Flag(b[4], 0x10) | Flag(b[5], 0x20) | Flag(b[6], 0x40) | Flag(b[7], 0x80)
  }

  function HighFlags(b: seq<bool>): bv16
    requires |b| == 16
  {
    Flag(b[8], 0x100) | Flag(b[9], 0x200) | Flag(b[10], 0x400) | Flag(b[11], 0x800) |
    Flag(b[12], 0x1000) | Flag(b[13], 0x2000) | Flag(b[14], 0x4000) | Flag(b[15], 0x8000)
  }

  /** The word with the given bits. */
  function Word(b: seq<bool>): bv16
    requires |b| == 16
  {
    LowFlags(b) | HighFlags(b)
  }

  predicate LowAgree(w: bv16, b: seq<bool>)
    requires |b| == 16
  {
    && (w & 1 != 0) == b[0] && (w & 2 != 0) == b[1] && (w & 4 != 0) == b[2] && (w & 8 != 0) == b[3]
    && (w & 0x10 != 0) == b[4] && (w & 0x20 != 0) == b[5] && (w & 0x40 != 0) == b[6] && (w & 0x80 != 0) == b[7]
  }

  predicate HighAgree(w: bv16, b: seq<bool>)
    requires |b| == 16
  {
    && (w & 0x100 != 0) == b[8] && (w & 0x200 != 0) == b[9] && (w & 0x400 != 0) == b[10] && (w & 0x800 != 0) == b[11]
    && (w & 0x1000 != 0) == b[12] && (w & 0x2000 != 0) == b[13] && (w & 0x4000 != 0) == b[14]
       && (w & 0x8000 != 0) == b[15]
  }

  lemma LowBitsOfWord(b: seq<bool>)
    requires |b| == 16
    ensures LowAgree(Word(b), b)
  {}

  lemma HighBitsOfWord(b: seq<bool>)
    requires |b| == 16
    ensures HighAgree(Word(b), b)
  {}

  lemma LowBitAgrees(w: bv16, b: seq<bool>, k: nat)
    requires |b| == 16 && k < 8 && LowAgree(w, b)
    ensures BitsOf(w)[k] == b[k]
  {}

  lemma HighBitAgrees(w: bv16, b: seq<bool>, k: nat)
    requires |b| == 16 && 8 <= k < 16 && HighAgree(w, b)
    ensures BitsOf(w)[k] == b[k]
  {}

  lemma BitsOfWord(b: seq<bool>)
    requires |b| == 16
    ensures BitsOf(Word(b)) == b
  {
    LowBitsOfWord(b);
    HighBitsOfWord(b);
    var w := Word(b);
    forall k | 0 <= k < 16 ensures BitsOf(w)[k] == b[k] {
      if k < 8 { LowBitAgrees(w, b, k); } else { HighBitAgrees(w, b, k); }
    }
  }

  /** Reverses the low word of a number with the swaps. */
  function Reversed(v: nat): (r: nat)
    ensures r == Rev(v, WORD_BITS)
  {
    var b := BitsBelow(v, WORD_BITS);
    BitsOfWord(b);
    SwapFieldsIsRev(Word(b));
    RevOfBits(v, WORD_BITS);
    FromBits(BitsOf(SwapFields(Word(b))))
  }
}
