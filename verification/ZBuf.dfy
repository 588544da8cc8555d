/** The bit buffer of the inflate decoder, and decoding one symbol.

    The input bytes, low bits first, form one number; a position in the stream is a count of
    bits.  Past the last byte the stream reads as zeros, as the decoder's byte reader does. */
module ZBuf {
  import opened Wrappers
  import opened Bits
  import opened CanonicalCode
  import opened ZHuffman

  const BYTE := 8

  ghost predicate AreBytes(b: seq<nat>) {
    forall i :: 0 <= i < |b| ==> b[i] < 256
  }

  /** The number whose base-256 digits are b, lowest first. */
  ghost function LittleEndian(b: seq<nat>): nat {
    if b == [] then 0 else b[0] + 256 * LittleEndian(b[1..])
  }

  /** The stream from bit position c on. */
  ghost function StreamAt(input: seq<nat>, c: nat): nat {
    Shr(LittleEndian(input), c)
  }

  lemma {:induction false} ZeroStream(n: nat)
    ensures Shr(0, n) == 0 && Low(0, n) == 0
  {
    if n > 0 { ZeroStream(n - 1); }
  }

  lemma ByteInFront(b: nat, rest: nat)
    requires b < 256
    ensures Low(b + 256 * rest, BYTE) == b && Shr(b + 256 * rest, BYTE) == rest
  {
    Pow2Values();
    ShlIsProduct(rest, BYTE);
    InFront(b, 8, rest);
  }

  lemma {:induction false} DropBytes(b: seq<nat>, k: nat)
    requires AreBytes(b)
    ensures StreamAt(b, 8 * k) == if k <= |b| then LittleEndian(b[k..]) else 0
  {
    if k == 0 {
      assert b[0..] == b;
    } else if b == [] {
      ZeroStream(8 * k);
    } else {
      DropBytes(b[1..], k - 1);
      ByteInFront(b[0], LittleEndian(b[1..]));
      ShrShr(LittleEndian(b), 8, 8 * (k - 1));
      assert k <= |b| ==> b[1..][k - 1..] == b[k..];
    }
  }

  /** Byte k of the input, or zero past its end, is the next eight bits of the stream. */
  lemma ByteAt(b: seq<nat>, k: nat)
    requires AreBytes(b)
    ensures Low(StreamAt(b, 8 * k), BYTE) == if k < |b| then b[k] else 0
  {
    DropBytes(b, k);
    if k < |b| {
      ByteInFront(b[k], LittleEndian(b[k..][1..]));
    } else {
      ZeroStream(8);
    }
  }

  /** One byte more above n bits that end at a byte boundary. */
  lemma NextByte(b: seq<nat>, c: nat, n: nat, k: nat)
    requires AreBytes(b) && c + n == 8 * k
    ensures Low(StreamAt(b, c), n + BYTE) == Low(StreamAt(b, c), n) + Shl(if k < |b| then b[k] else 0, n)
  {
    ByteAt(b, k);
    ShrShr(LittleEndian(b), c, n);
    ShrLow(StreamAt(b, c), n, BYTE);
  }

  class BitBuf {
    const zbuffer: seq<nat>
    var pos: nat
    var num_bits: nat
    var code_buffer: nat
    /** Bits handed out, and bytes taken from the input or made up past its end. */
    ghost var consumed: nat
    ghost var fetched: nat

    constructor (input: seq<nat>)
      requires AreBytes(input)
      ensures zbuffer == input && Valid() && consumed == 0 && num_bits == 0
    {
      zbuffer, pos, num_bits, code_buffer, consumed, fetched := input, 0, 0, 0, 0, 0;
    }

    /** The buffered bits are the next ones of the stream; the byte position is past them. */
    ghost predicate Valid()
      reads this
    {
      && AreBytes(zbuffer) && num_bits <= 32 && consumed + num_bits == 8 * fetched
      && pos == (if fetched < |zbuffer| then fetched else |zbuffer|)
      && code_buffer == Low(Stream(), num_bits)
    }

    ghost function Stream(): nat
      reads this
    {
      StreamAt(zbuffer, consumed)
    }

    method Get8() returns (b: nat)
      requires pos <= |zbuffer|
      modifies this`pos
      ensures b == if old(pos) < |zbuffer| then zbuffer[old(pos)] else 0
      ensures pos == if old(pos) < |zbuffer| then old(pos) + 1 else old(pos)
    {
      if pos >= |zbuffer| {
        return 0;
      }
      b := zbuffer[pos];
      pos := pos + 1;
    }

    /** The next byte of the input, when no bits are buffered. */
    method GetByte() returns (b: nat)
      requires Valid() && num_bits == 0
      modifies this
      ensures Valid() && num_bits == 0 && consumed == old(consumed) + 8
      ensures b == Low(old(Stream()), BYTE)
    {
      ByteAt(zbuffer, fetched);
      b := Get8();
      fetched, consumed := fetched + 1, consumed + 8;
    }

    /** Skips n bytes of the input, when no bits are buffered. */
    method Skip(n: nat)
      requires Valid() && num_bits == 0 && pos + n <= |zbuffer| && fetched <= |zbuffer|
      modifies this
      ensures Valid() && num_bits == 0 && consumed == old(consumed) + 8 * n
    {
      pos, fetched, consumed := pos + n, fetched + n, consumed + 8 * n;
    }

    /** One byte more in the buffer. */
    method FillByte()
      requires Valid() && num_bits <= 24
      modifies this
      ensures Valid() && num_bits == old(num_bits) + 8 && consumed == old(consumed)
    {
      NextByte(zbuffer, consumed, num_bits, fetched);
      var b := Get8();
      code_buffer := code_buffer + Shl(b, num_bits);
      num_bits := num_bits + 8;
      fetched := fetched + 1;
    }

    /** Fills the buffer to at least 25 bits. */
    method FillBits()
      requires Valid() && num_bits <= 24
      modifies this
      ensures Valid() && num_bits > 24 && consumed == old(consumed)
    {
      FillByte();
      while num_bits <= 24
        invariant Valid() && consumed == old(consumed)
        decreases 32 - num_bits
      {
        FillByte();
      }
    }

    /** Drops n buffered bits. */
    method Drop(n: nat)
      requires Valid() && n <= num_bits
      modifies this
      ensures Valid() && consumed == old(consumed) + n && num_bits == old(num_bits) - n
      ensures Stream() == Shr(old(Stream()), n)
    {
      ShrLow(Stream(), n, num_bits - n);
      ShrShr(LittleEndian(zbuffer), consumed, n);
      code_buffer := Shr(code_buffer, n);
      num_bits := num_bits - n;
      consumed := consumed + n;
    }

    /** Reads n bits. */
    method Receive(n: nat) returns (k: nat)
      requires Valid() && n <= 25
      modifies this
      ensures Valid() && consumed == old(consumed) + n
      ensures k == Low(old(Stream()), n)
      ensures Stream() == Shr(old(Stream()), n)
      ensures n <= old(num_bits) ==> num_bits == old(num_bits) - n
    {
      if num_bits < n {
        FillBits();
      }
      LowLow(Stream(), n, num_bits);
      k := Low(code_buffer, n);
      Drop(n);
    }

    /** Decodes the symbol whose code comes next; -1 exactly when no code does. */
    method HuffmanDecode(h: Huffman, ghost z: Sizes) returns (symbol: int)
      requires Valid() && h.Filled(z)
      modifies this
      ensures Valid() && symbol == Decoded(z, old(Stream()))
      ensures symbol < 0 ==> consumed == old(consumed)
      ensures symbol >= 0 ==> consumed == old(consumed) + z[symbol]
      ensures symbol >= 0 ==> Stream() == Shr(old(Stream()), z[symbol])
    {
      assert Unlock(0);
      if num_bits < 16 {
        FillBits();
      }
      var b := h.fast[Low(code_buffer, FAST_BITS)];
      LowLow(Stream(), FAST_BITS, num_bits);
      FastLookup(z, Stream(), b);
      if b != 0 {
        Drop(b / 512);
        return b % 512;
      }
      symbol := SlowPath(h, z);
    }

    /** Decodes a code that the fast table does not hold. */
    method SlowPath(h: Huffman, ghost z: Sizes) returns (symbol: int)
      requires Valid() && h.Filled(z) && num_bits >= 16
      requires forall i: nat :: i < |z| && z[i] <= FAST_BITS ==> !Matches(z, Stream(), i)
      modifies this
      ensures Valid() && symbol == Decoded(z, old(Stream()))
      ensures symbol < 0 ==> consumed == old(consumed)
      ensures symbol >= 0 ==> consumed == old(consumed) + z[symbol]
      ensures symbol >= 0 ==> Stream() == Shr(old(Stream()), z[symbol])
    {
      var k := BitReverse(code_buffer, 16);
      assert Unlock(0);
      RevBuffered(Stream(), 16, num_bits);
      LongCode(z, Stream());
      Pow2Values();
      var s := SlowSize(h, z, k);
      if s == 16 {
        MatchExists(z, Stream());
        return -1;
      }
      ghost var i := SlowAnswer(h, z, Stream(), s);
      symbol := h.value[Shr(k, 16 - s) - h.firstcode[s] + h.firstsymbol[s]];
      Drop(s);
    }
  }

  lemma RevBuffered(v: nat, m: nat, n: nat)
    requires m <= n
    ensures Rev(Low(v, n), m) == Rev(v, m)
  {
    LowLow(v, m, n);
    RevLowBits(Low(v, n), v, m);
  }

  /** Where the per-size tables send a long code. */
  lemma SlowAnswer(h: Huffman, z: Sizes, v: nat, s: nat) returns (i: nat)
    requires h.Filled(z) && 1 <= s <= 15 && InTile(z, v, s)
    ensures Decoded(z, v) == i && i < |z| && z[i] == s
    ensures h.Allocated()
    ensures var b := Shr(Rev(v, WORD_BITS), 16 - s) - h.firstcode[s] + h.firstsymbol[s];
      0 <= b < MAX_SYMBOLS && h.value[b] == i
  {
    assert Unlock(0);
    i := MatchInside(z, v, s);
    DecodedIs(z, v, i);
    RevPrefix(v, WORD_BITS, s);
    assert Shr(Rev(v, WORD_BITS), 16 - s) - h.firstcode[s] + h.firstsymbol[s] == Slot(z, i);
  }

  /** The size of the code that k starts with, most significant bits first; 16 if none does. */
  method SlowSize(h: Huffman, ghost z: Sizes, k: nat) returns (s: nat)
    requires h.Filled(z) && Limit(z, FAST_BITS) <= k < 0x10000
    ensures FAST_BITS < s <= 16 && Limit(z, s - 1) <= k && (s < 16 ==> k < Limit(z, s))
  {
    assert Unlock(0);
    s := FAST_BITS + 1;
    while k >= h.maxcode[s]
      invariant FAST_BITS < s <= 16 && Limit(z, s - 1) <= k
      decreases 16 - s
    {
      s := s + 1;
    }
  }

  /** The symbol whose code comes first in the stream v, or -1 if no code does. */
  ghost function Decoded(z: Sizes, v: nat): (r: int)
    ensures r >= 0 ==> Matches(z, v, r)
    ensures r < 0 ==> r == -1 && forall i: nat :: !Matches(z, v, i)
  {
    if i: nat :| Matches(z, v, i) then i else -1
  }

  lemma DecodedIs(z: Sizes, v: nat, i: nat)
    requires Matches(z, v, i)
    ensures Decoded(z, v) == i
  {
    MatchUnique(z, v, i, Decoded(z, v));
  }

  /** The fast table answers for exactly the streams that start with a short code. */
  lemma FastLookup(z: Sizes, v: nat, b: nat)
    requires FastEntry(z, |z|, Low(v, FAST_BITS), b)
    ensures b != 0 ==> b % 512 == Decoded(z, v) && b / 512 == z[b % 512] <= FAST_BITS
    ensures b == 0 ==> forall i: nat :: i < |z| && z[i] <= FAST_BITS ==> !Matches(z, v, i)
  {
    if b != 0 {
      MatchLowBits(z, v, FAST_BITS, b % 512);
      DecodedIs(z, v, b % 512);
    } else {
      forall i: nat | i < |z| && z[i] <= FAST_BITS ensures !Matches(z, v, i) {
        MatchLowBits(z, v, FAST_BITS, i);
      }
    }
  }

  /** A stream that starts with no short code lies past the short codes' limit. */
  lemma LongCode(z: Sizes, v: nat)
    requires forall i: nat :: i < |z| && z[i] <= FAST_BITS ==> !Matches(z, v, i)
    ensures Limit(z, FAST_BITS) <= Rev(v, 16)
  {
    if Rev(v, 16) < Limit(z, FAST_BITS) {
      var s := TileOf(z, Rev(v, 16), FAST_BITS);
      var i := MatchInside(z, v, s);
    }
  }
}
