/** Bytes that the inflate decoder never comes back from.

    A stored block of one byte, then the header of a block whose only length symbol is 286 and whose
    only distance symbol is 0.  Nothing follows, and zeros are what both codes are made of. */
module EndlessInput {
  import opened Wrappers
  import opened Bits
  import opened CanonicalCode
  import opened ZBuf
  import opened OutBuf
  import opened Deflate
  import opened DeflateStream
  import opened EndlessBlocks
  import opened InflateStream
  import opened DynamicEncode
  import opened DeflateBytes

  /** The code in which the last of n symbols is the only one. */
  function OnlySymbol(n: nat): Sizes {
    seq(n, i => if i == n - 1 then 1 else 0)
  }

  lemma {:induction false} NoneBefore(n: nat, i: nat)
    requires i < n
    ensures CountTo(OnlySymbol(n), i, 1) == 0 && KraftTo(OnlySymbol(n), i, MAX_SIZE) == 0
  {
    if i > 0 { NoneBefore(n, i - 1); }
  }

  lemma OnlySymbolIsCode(n: nat)
    requires n > 0
    ensures Bounded(OnlySymbol(n)) && Kraft(OnlySymbol(n)) && Decoded(OnlySymbol(n), 0) == n - 1
  {
    NoneBefore(n, n - 1);
    assert Rev(0, 1) == 0;
    assert Matches(OnlySymbol(n), 0, n - 1);
    DecodedIs(OnlySymbol(n), 0, n - 1);
  }

  lemma OnlyCodes(lengths: nat, distances: nat) returns (l: Listing)
    requires lengths == 287 && distances == 1
    ensures Announced(OnlySymbol(lengths), OnlySymbol(distances), l)
    ensures CopiesNothing(OnlySymbol(lengths), OnlySymbol(distances), 1)
  {
    OnlySymbolIsCode(lengths);
    OnlySymbolIsCode(distances);
    l := PlainListing(OnlySymbol(lengths), OnlySymbol(distances));
    assert DistanceBase(0) == 1;
  }

  // ----- the bytes -----

  /** A stored block of the byte zero. */
  const STORED: seq<nat> := [0, 1, 0, 254, 255, 0]
  const AFTER: nat := 48

  /** The final block: its header, and nothing more. */
  ghost function Rest(lit: Sizes, dst: Sizes, l: Listing): nat
    requires Announced(lit, dst, l)
  {
    Front(1, FINAL_BITS, Front(2, KIND_BITS, EmitHeader(lit, dst, l, 0)))
  }

  ghost function TrapInput(lit: Sizes, dst: Sizes, l: Listing): seq<nat>
    requires Announced(lit, dst, l)
  {
    STORED + Bytes(Rest(lit, dst, l))
  }

  lemma StoredFirst(input: seq<nat>)
    requires AreBytes(input) && STORED <= input
    ensures BlocksEnd(input, 0, [Stored([0])]) == AFTER
  {
    assert input[..6] == STORED;
    assert forall i :: 0 <= i < 6 ==> input[i] == STORED[i];
    assert input[5..6] == [0];
    NoBits(input);
    assert BlockAt(input, 0, Stored([0])) == AFTER;
    BlocksNext(input, 0, [], Stored([0]), 0);
    assert [] + [Stored([0])] == [Stored([0])];
  }

  /** The three header bits of the first block. */
  lemma NoBits(input: seq<nat>)
    requires AreBytes(input) && |input| > 0 && input[0] == 0
    ensures !Final(input, 0) && Low(StreamAt(input, 1), KIND_BITS) == 0
  {
    var v, w := LittleEndian(input), LittleEndian(input[1..]);
    assert v == 256 * w;
    assert StreamAt(input, 0) == v && StreamAt(input, 1) == Shr(v / 2, 0) == v / 2 == 128 * w;
    assert Low(v, 1) == v % 2 == 0;
    assert Low(128 * w, 2) == 128 * w % 2 + 2 * Low(64 * w, 1) && Low(64 * w, 1) == 64 * w % 2;
  }

  lemma TrapHeader(input: seq<nat>, lit: Sizes, dst: Sizes, l: Listing, c: nat, to: nat)
    requires Announced(lit, dst, l) && StreamAt(input, c) == Rest(lit, dst, l) && to == c + 3 + HeaderWidth(l)
    ensures Starts(input, c, lit, dst, to) && StreamAt(input, to) == 0
  {
    Pow2Values();
    var u, at, header := c + 1, c + 3, EmitHeader(lit, dst, l, 0);
    TakeBits(input, c, 1, FINAL_BITS, Front(2, KIND_BITS, header), u);
    TakeBits(input, u, 2, KIND_BITS, header, at);
    HeaderRoundTrip(input, at, lit, dst, l, 0, to);
    StartsAt(input, c, lit, dst, u, at, to);
  }

  lemma BlockIsTrap(input: seq<nat>, lit: Sizes, dst: Sizes, c: nat, to: nat, k: Limits)
    requires AreBytes(input) && LengthCode(lit) && DistanceCode(dst) && CopiesNothing(lit, dst, 1) && Room(k, 1)
    requires Starts(input, c, lit, dst, to) && StreamAt(input, to) == 0
    ensures BlockTraps(input, c, 1, k)
  {
    CaughtByZeros(lit, dst, input, to, 1, k, [], 1);
    NeverEndsExactly(lit, dst, input, to, 1, k);
  }

  lemma StoredSays()
    ensures Says([Stored([0])], [0])
  {
    var bs := [Stored([0])];
    LiteralsExpand([0], []);
    assert bs[..0] == [] && AllTokens(bs) == [] + Literals([0]) == Literals([0]) && [] + [0] == [0];
  }

  /** After the stored byte comes a block that never ends. */
  lemma TrapFollows(input: seq<nat>, k: Limits)
    requires EndsAt(input, 0, [Stored([0])], AFTER) && BlockTraps(input, AFTER, 1, k)
    ensures HoldsTrap(input, false, k)
  {
    StoredSays();
    assert TrapsAfter(input, 0, k, [Stored([0])], [0]);
  }

  lemma TrapIsWritten(lit: Sizes, dst: Sizes, l: Listing, c: nat)
    requires Announced(lit, dst, l) && c == AFTER
    ensures var input := TrapInput(lit, dst, l);
      AreBytes(input) && STORED <= input && StreamAt(input, c) == Rest(lit, dst, l)
  {
    var v := Rest(lit, dst, l);
    BytesBehind(STORED, v, c, 0);
    assert STORED + Bytes(v) == STORED + Bytes(v) + ZeroBytes(0);
  }

  /** With any two codes that make zeros of a length and a distance that copy nothing, the decoder does not come back,
      if there is room for the first byte. */
  lemma AnyTrap(lit: Sizes, dst: Sizes, l: Listing, k: Limits)
    requires Announced(lit, dst, l) && CopiesNothing(lit, dst, 1) && Room(k, 1)
    ensures AreBytes(TrapInput(lit, dst, l)) && HoldsTrap(TrapInput(lit, dst, l), false, k)
  {
    var input, c := TrapInput(lit, dst, l), AFTER;
    var to := c + 3 + HeaderWidth(l);
    TrapIsWritten(lit, dst, l, c);
    StoredFirst(input);
    TrapHeader(input, lit, dst, l, c, to);
    BlockIsTrap(input, lit, dst, c, to, k);
    TrapFollows(input, k);
  }

  /** The decoder does not come back from these bytes, if there is room for the first byte. */
  lemma NeverReturns(lengths: nat, distances: nat) returns (input: seq<nat>)
    requires lengths == 287 && distances == 1
    ensures AreBytes(input) && forall k :: Room(k, 1) ==> HoldsTrap(input, false, k)
  {
    var l := OnlyCodes(lengths, distances);
    var lit, dst := OnlySymbol(lengths), OnlySymbol(distances);
    input := TrapInput(lit, dst, l);
    TrapIsWritten(lit, dst, l, AFTER);
    forall k | Room(k, 1) ensures HoldsTrap(input, false, k) { AnyTrap(lit, dst, l, k); }
  }
}
