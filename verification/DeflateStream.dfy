/** Blocks, and streams of them (section 3.2.3 of RFC 1951). */
module DeflateStream {
  import opened Wrappers
  import opened Bits
  import opened CanonicalCode
  import opened Succession
  import opened ZBuf
  import opened Deflate

  // ----- the fixed codes (section 3.2.6) -----

  function FixedLengths(): (z: Sizes)
    ensures |z| == 288
  {
    seq(288, i => if i < 144 then 8 else if i < 256 then 9 else if i < 280 then 7 else 8)
  }

  function FixedDistances(): (z: Sizes)
    ensures |z| == 32
  {
    seq(32, _ => 5)
  }

  lemma {:induction false} FixedLengthsKraft(n: nat)
    requires n <= 288
    ensures KraftTo(FixedLengths(), n, MAX_SIZE) ==
      if n <= 144 then 128 * n else if n <= 256 then 18432 + 64 * (n - 144)
      else if n <= 280 then 25600 + 256 * (n - 256) else 31744 + 128 * (n - 280)
  {
    Pow2Values();
    if n > 0 { FixedLengthsKraft(n - 1); }
  }

  lemma {:induction false} FixedDistancesKraft(n: nat)
    requires n <= 32
    ensures KraftTo(FixedDistances(), n, MAX_SIZE) == 1024 * n
  {
    Pow2Values();
    if n > 0 { FixedDistancesKraft(n - 1); }
  }

  /** The fixed codes are codes, and use every bit string. */
  lemma FixedCodesAreComplete()
    ensures LengthCode(FixedLengths()) && KraftTo(FixedLengths(), 288, MAX_SIZE) == Pow2(MAX_SIZE)
    ensures DistanceCode(FixedDistances()) && KraftTo(FixedDistances(), 32, MAX_SIZE) == Pow2(MAX_SIZE)
    ensures Kraft(FixedLengths()) && Kraft(FixedDistances())
  {
    Pow2Values();
    FixedLengthsKraft(288);
    FixedDistancesKraft(32);
  }

  lemma FixedCodesFit()
    ensures LengthCode(FixedLengths()) && DistanceCode(FixedDistances()) && Kraft(FixedLengths())
      && Kraft(FixedDistances())
  {
    FixedCodesAreComplete();
  }

  /** How many of the first n literal and length symbols have size s. */
  lemma {:induction false} FixedCounts(n: nat, s: nat)
    requires n <= 288
    ensures CountTo(FixedLengths(), n, s) ==
      if s == 8 then (if n <= 144 then n else if n <= 280 then 144 else n - 136)
      else if s == 9 then (if n <= 144 then 0 else if n <= 256 then n - 144 else 112)
      else if s == 7 then (if n <= 256 then 0 else if n <= 280 then n - 256 else 24)
      else 0
  {
    if n > 0 { FixedCounts(n - 1, s); }
  }

  lemma {:induction false} FixedFirst(s: nat)
    requires 0 < s <= 9
    ensures First(FixedLengths(), s) == if s == 8 then 48 else if s == 9 then 400 else 0
  {
    if s > 1 {
      FixedFirst(s - 1);
      FixedCounts(288, s - 1);
    }
  }

  lemma {:induction false} FixedDistanceCounts(n: nat, s: nat)
    requires n <= 32
    ensures CountTo(FixedDistances(), n, s) == if s == 5 then n else 0
  {
    if n > 0 { FixedDistanceCounts(n - 1, s); }
  }

  lemma {:induction false} FixedDistanceFirst(s: nat)
    requires 0 < s <= 5
    ensures First(FixedDistances(), s) == 0
  {
    if s > 1 {
      FixedDistanceFirst(s - 1);
      FixedDistanceCounts(32, s - 1);
    }
  }

  /** The code of every symbol of the fixed code: the table of section 3.2.6. */
  lemma FixedCode(i: nat)
    requires i < 288
    ensures FixedLengths()[i] > 0
    ensures (FixedLengths()[i], Code(FixedLengths(), i)) ==
      if i <= 143 then (8, 0x30 + i)
      else if i <= 255 then (9, 0x190 + (i - 144))
      else if i <= 279 then (7, i - 256)
      else (8, 0xc0 + (i - 280))
  {
    var s := FixedLengths()[i];
    FixedCounts(i, s);
    FixedFirst(s);
  }

  /** Fixed distance codes are five bits wide and stand for themselves. */
  lemma FixedDistanceCode(i: nat)
    requires i < 32
    ensures FixedDistances()[i] == 5 && Code(FixedDistances(), i) == i
  {
    FixedDistanceCounts(i, 5);
    FixedDistanceFirst(5);
  }

  // ----- blocks -----

  const FINAL_BITS := 1
  const KIND_BITS := 2

  datatype Block = Stored(bytes: seq<nat>) | Coded(lit: Sizes, dst: Sizes, tokens: seq<Token>)

  ghost function ByteOf(input: seq<nat>, k: nat): nat {
    if k < |input| then input[k] else 0
  }

  /** The position after a stored block whose length field is at the next byte boundary, or -1. */
  ghost function StoredEnd(input: seq<nat>, c: nat, bytes: seq<nat>): (r: int)
    ensures r == -1 || r > c
  {
    var k := (c + 7) / 8;
    var len := ByteOf(input, k) + 256 * ByteOf(input, k + 1);
    var nlen := ByteOf(input, k + 2) + 256 * ByteOf(input, k + 3);
    if len + nlen == 0xffff && k + 4 + len <= |input| && bytes == input[k + 4..k + 4 + len] then 8 * (k + 4 + len)
    else -1
  }

  /** The codes of a block of tokens: the fixed ones, or those that the block's header lists. */
  ghost function TablesAt(input: seq<nat>, c: nat, kind: nat): (h: Header)
    ensures h.Header? ==> LengthCode(h.lit) && DistanceCode(h.dst) && Kraft(h.lit) && Kraft(h.dst) && h.to >= c
  {
    if kind == 1 then FixedCodesFit(); Header(FixedLengths(), FixedDistances(), c)
    else if kind == 2 then ReadHeader(input, c)
    else BadHeader
  }

  ghost function CodedEnd(lit: Sizes, dst: Sizes, input: seq<nat>, c: nat, ts: seq<Token>): (r: int)
    ensures r == -1 || r >= c
  {
    if LengthCode(lit) && DistanceCode(dst) then BlockEnd(lit, dst, input, c, ts) else -1
  }

  /** The position after the block b, if it stands at position c with its three header bits; else -1. */
  ghost function BlockAt(input: seq<nat>, c: nat, b: Block): (r: int)
    ensures r == -1 || r > c
  {
    var kind := Low(StreamAt(input, c + 1), KIND_BITS);
    match b
    case Stored(bytes) =>
      if kind == 0 then StoredEnd(input, c + 3, bytes) else -1
    case Coded(lit, dst, ts) =>
      var h := TablesAt(input, c + 3, kind);
      if h.Header? && lit == h.lit && dst == h.dst then CodedEnd(lit, dst, input, h.to, ts) else -1
  }

  lemma PastEnd(input: seq<nat>, c: nat, n: nat)
    requires AreBytes(input) && c >= 8 * |input|
    ensures Low(StreamAt(input, c), n) == 0
  {
    DropBytes(input, |input|);
    ShrShr(LittleEndian(input), 8 * |input|, c - 8 * |input|);
    ZeroStream(c - 8 * |input|);
    ZeroStream(n);
  }

  lemma StoredInside(input: seq<nat>, c: nat, bytes: seq<nat>)
    requires StoredEnd(input, c + 3, bytes) >= 0
    ensures c < 8 * |input|
  {}

  /** No block starts past the end of the input. */
  lemma BlockInside(input: seq<nat>, c: nat, b: Block)
    requires AreBytes(input) && BlockAt(input, c, b) >= 0
    ensures c < 8 * |input|
  {
    if c >= 8 * |input| {
      PastEnd(input, c + 1, KIND_BITS);
      StoredInside(input, c, b.bytes);
    }
  }

  /** At most one block stands at a position. */
  lemma BlockAtUnique(input: seq<nat>, c: nat, b: Block, b': Block)
    requires BlockAt(input, c, b) >= 0 && BlockAt(input, c, b') >= 0
    ensures b == b'
  {
    if b.Coded? && b'.Coded? {
      var kind := Low(StreamAt(input, c + 1), KIND_BITS);
      BlockUnique(b.lit, b.dst, input, TablesAt(input, c + 3, kind).to, b.tokens, b'.tokens);
    }
  }

  function Literals(bytes: seq<nat>): seq<Token> {
    seq(|bytes|, i requires 0 <= i < |bytes| => Literal(bytes[i]))
  }

  function BlockTokens(b: Block): seq<Token> {
    match b
    case Stored(bytes) => Literals(bytes)
    case Coded(_, _, ts) => ts
  }

  /** A stored block writes its bytes. */
  lemma {:induction false} LiteralsExpand(bytes: seq<nat>, before: seq<nat>)
    ensures Expands(Literals(bytes), before, before + bytes)
    ensures Size(Literals(bytes)) == |bytes| && Definite(Literals(bytes), |before|)
  {
    if bytes == [] {
      assert before + bytes == before;
    } else {
      var n := |bytes| - 1;
      LiteralsExpand(bytes[..n], before);
      assert Literals(bytes)[..n] == Literals(bytes[..n]);
      assert (before + bytes)[..|before| + n] == before + bytes[..n];
      assert before + bytes == (before + bytes[..n]) + [bytes[n]];
    }
  }

  // ----- streams -----

  ghost predicate Final(input: seq<nat>, c: nat) {
    Low(StreamAt(input, c), FINAL_BITS) == 1
  }

  ghost function BlockReader(input: seq<nat>): Reader<Block> {
    (c: nat, b: Block) => BlockAt(input, c, b)
  }

  ghost function StreamStops(input: seq<nat>): nat -> bool {
    (c: nat) => Final(input, c)
  }

  lemma BlockReaderDeterministic(input: seq<nat>)
    ensures Deterministic(BlockReader(input))
  {
    var at := BlockReader(input);
    forall c, b, b' | at(c, b) >= 0 && at(c, b') >= 0 ensures b == b' {
      BlockAtUnique(input, c, b, b');
    }
  }

  /** The position after blocks that stand at position c, none of them the last; or -1. */
  ghost function BlocksEnd(input: seq<nat>, c: nat, bs: seq<Block>): int {
    EndOf(BlockReader(input), StreamStops(input), c, bs)
  }

  /** The last block stands at position u, where the others end, and is the first one marked as final. */
  ghost predicate EndsStream(input: seq<nat>, c: nat, most: seq<Block>, last: Block, u: int) {
    BlocksEnd(input, c, most) == u && u >= 0 && Final(input, u) && BlockAt(input, u, last) >= 0
  }

  /** A whole stream stands at position c: blocks up to the first one marked as final; locked. */
  ghost predicate Stands(input: seq<nat>, c: nat, bs: seq<Block>) {
    bs != [] && forall key: nat {:trigger Unlock(key)} :: Unlock(key) ==>
      EndsStream(input, c, bs[..|bs| - 1], bs[|bs| - 1], BlocksEnd(input, c, bs[..|bs| - 1]))
  }

  function AllTokens(bs: seq<Block>): seq<Token> {
    if bs == [] then [] else AllTokens(bs[..|bs| - 1]) + BlockTokens(bs[|bs| - 1])
  }

  lemma BlocksNext(input: seq<nat>, c: nat, bs: seq<Block>, b: Block, u: nat)
    requires BlocksEnd(input, c, bs) == u && !Final(input, u) && BlockAt(input, u, b) >= 0
    ensures BlocksEnd(input, c, bs + [b]) == BlockAt(input, u, b)
  {
    EndOfNext(BlockReader(input), StreamStops(input), c, bs, b, u);
  }

  /** Blocks that have been read are the first ones of the stream, and another one follows. */
  lemma BlocksArePrefix(input: seq<nat>, c: nat, bs: seq<Block>, all: seq<Block>, u: nat)
    requires BlocksEnd(input, c, bs) == u && Stands(input, c, all)
    ensures bs < all && BlockAt(input, u, all[|bs|]) >= 0 && (Final(input, u) <==> |all| == |bs| + 1)
  {
    assert Unlock(0);
    var at, stops, most := BlockReader(input), StreamStops(input), all[..|all| - 1];
    BlockReaderDeterministic(input);
    if |bs| <= |most| {
      ShorterIsPrefix(at, stops, c, bs, most, u);
    } else {
      ShorterIsPrefix(at, stops, c, most, bs, BlocksEnd(input, c, most));
    }
    assert stops(u) <==> Final(input, u);
    if |bs| == |most| { assert bs == most; }
  }

  /** An input holds at most one stream. */
  lemma StreamUnique(input: seq<nat>, c: nat, bs: seq<Block>, bs': seq<Block>)
    requires Stands(input, c, bs) && Stands(input, c, bs')
    ensures bs == bs'
  {
    assert Unlock(0);
    var most := bs[..|bs| - 1];
    var u := BlocksEnd(input, c, most);
    BlocksArePrefix(input, c, most, bs', u);
    BlockAtUnique(input, u, bs[|bs| - 1], bs'[|most|]);
    SameLast(bs, bs');
  }

  lemma SameLast(bs: seq<Block>, bs': seq<Block>)
    requires |bs| == |bs'| > 0 && bs[..|bs| - 1] < bs' && bs[|bs| - 1] == bs'[|bs| - 1]
    ensures bs == bs'
  {
    assert bs == bs[..|bs| - 1] + [bs[|bs| - 1]] && bs' == bs'[..|bs| - 1] + [bs'[|bs| - 1]];
  }
}
