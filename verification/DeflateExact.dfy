/** What the decoder reads is what the encoder writes, and nothing else. */
module DeflateExact {
  import opened Wrappers
  import opened Bits
  import opened CanonicalCode
  import opened Succession
  import opened ZBuf
  import opened Deflate
  import opened DeflateStream
  import opened DeflateEncode
  import opened DynamicEncode
  import opened InflateStream
  import opened DeflateBytes

  // ----- symbols and bits -----

  /** A stream that decodes to a symbol starts with its code. */
  lemma DecodedWasEmitted(z: Sizes, v: nat, s: nat)
    requires Fits(z) && Decoded(z, v) == s
    ensures s < |z| && 0 < z[s] <= MAX_SIZE && v == Emit(z, s, Shr(v, z[s]))
  {
    MatchIsReversal(z, v, s);
    SplitAt(v, z[s]);
  }

  /** The next n bits, and what follows them. */
  lemma BitsTaken(input: seq<nat>, c: nat, n: nat, u: nat)
    requires u == c + n
    ensures StreamAt(input, c) == Front(Low(StreamAt(input, c), n), n, StreamAt(input, u))
  {
    SplitAt(StreamAt(input, c), n);
    ShrOn(LittleEndian(input), c, n, u);
  }

  lemma SymbolTaken(z: Sizes, input: seq<nat>, c: nat, s: nat, u: nat)
    requires Fits(z) && Decoded(z, StreamAt(input, c)) == s && s < |z| && u == c + z[s]
    ensures 0 < z[s] <= MAX_SIZE && StreamAt(input, c) == Emit(z, s, StreamAt(input, u))
  {
    DecodedWasEmitted(z, StreamAt(input, c), s);
    ShrOn(LittleEndian(input), c, z[s], u);
  }

  // ----- tokens -----

  /** What is read as a distance is some range with the value of its extra bits. */
  lemma DistanceTaken(dst: Sizes, input: seq<nat>, c: nat, length: nat, end: nat, t: Token) returns (d: nat, f: nat)
    requires DistanceCode(dst) && Fits(dst) && ReadDistance(dst, StreamAt(input, c), length, c) == Next(t, end)
    ensures GoodDistance(dst, d, f) && t == Copy(length, DistanceBase(d) + f)
    ensures end == c + dst[d] + DistanceExtra(d)
      && StreamAt(input, c) == EmitDistance(dst, d, f, StreamAt(input, end))
  {
    d := Decoded(dst, StreamAt(input, c));
    DecodedWasEmitted(dst, StreamAt(input, c), d);
    var u := c + dst[d];
    SymbolTaken(dst, input, c, d, u);
    f := Low(StreamAt(input, u), DistanceExtra(d));
    BitsTaken(input, u, DistanceExtra(d), end);
    ShrOn(LittleEndian(input), c, dst[d], u);
  }

  lemma PairTaken(lit: Sizes, dst: Sizes, input: seq<nat>, c: nat, s: nat, u: nat, end: nat, t: Token)
    returns (x: Choice)
    requires LengthCode(lit) && DistanceCode(dst) && Fits(dst) && 257 <= s < |lit| && lit[s] > 0
    requires StreamAt(input, c) == Emit(lit, s, StreamAt(input, u))
      && ReadLength(dst, StreamAt(input, u), s, u) == Next(t, end)
    ensures Usable(lit, dst, x) && TokenOf(x) == t
      && StreamAt(input, c) == EmitChoice(lit, dst, x, StreamAt(input, end))
  {
    var r := s - 257;
    var e, at := Low(StreamAt(input, u), LengthExtra(r)), u + LengthExtra(r);
    BitsTaken(input, u, LengthExtra(r), at);
    ShrOn(LittleEndian(input), u, LengthExtra(r), at);
    var d, f := DistanceTaken(dst, input, at, LengthBase(r) + e, end, t);
    x := Pair(r, e, d, f);
  }

  /** A token that is read is one that can be written, in this way. */
  lemma TokenTaken(lit: Sizes, dst: Sizes, input: seq<nat>, c: nat, end: nat, t: Token) returns (x: Choice)
    requires LengthCode(lit) && DistanceCode(dst) && Fits(lit) && Fits(dst)
    requires ReadAt(lit, dst, input, c) == Next(t, end)
    ensures Usable(lit, dst, x) && TokenOf(x) == t
      && StreamAt(input, c) == EmitChoice(lit, dst, x, StreamAt(input, end))
  {
    var s := Decoded(lit, StreamAt(input, c));
    DecodedWasEmitted(lit, StreamAt(input, c), s);
    var u := c + lit[s];
    SymbolTaken(lit, input, c, s, u);
    if s < 256 {
      x := Byte(s);
    } else {
      ShrOn(LittleEndian(input), c, lit[s], u);
      x := PairTaken(lit, dst, input, c, s, u, end, t);
    }
  }

  /** The end of a block that is read has been written. */
  lemma StopTaken(lit: Sizes, dst: Sizes, input: seq<nat>, c: nat, end: nat)
    requires LengthCode(lit) && DistanceCode(dst) && Fits(lit) && ReadAt(lit, dst, input, c) == Stop(end)
    ensures |lit| > 256 && lit[256] > 0 && StreamAt(input, c) == Emit(lit, 256, StreamAt(input, end))
  {
    DecodedWasEmitted(lit, StreamAt(input, c), 256);
    SymbolTaken(lit, input, c, 256, end);
  }

  lemma FirstItem<T>(at: Reader<T>, stops: nat -> bool, c: nat, xs: seq<T>)
    requires xs != [] && EndOf(at, stops, c, xs) >= 0
    ensures !stops(c) && at(c, xs[0]) >= 0 && EndOf(at, stops, at(c, xs[0]), xs[1..]) == EndOf(at, stops, c, xs)
  {
    PrefixStands(at, stops, c, xs, 1);
    assert xs[..1][..0] == [];
    EndOfCons(at, stops, c, xs[0], xs[1..]);
    assert [xs[0]] + xs[1..] == xs;
  }

  lemma FirstToken(lit: Sizes, dst: Sizes, input: seq<nat>, c: nat, ts: seq<Token>, end: nat) returns (u: nat)
    requires LengthCode(lit) && DistanceCode(dst) && ts != [] && BlockEnd(lit, dst, input, c, ts) == end
    ensures ReadAt(lit, dst, input, c) == Next(ts[0], u) && BlockEnd(lit, dst, input, u, ts[1..]) == end
  {
    FirstItem(TokenReader(lit, dst, input), BlockStops(lit, dst, input), c, ts);
    u := ReadAt(lit, dst, input, c).to;
  }

  /** The tokens of a block that is read have been written, in some way, and so has its end. */
  lemma {:induction false} BlockTaken(lit: Sizes, dst: Sizes, input: seq<nat>, c: nat, ts: seq<Token>, end: nat)
    returns (xs: seq<Choice>)
    requires LengthCode(lit) && DistanceCode(dst) && Fits(lit) && Fits(dst) && BlockEnd(lit, dst, input, c, ts) == end
    ensures Codes(lit, dst) && AllUsable(lit, dst, xs) && TokensOf(xs) == ts
    ensures StreamAt(input, c) == EmitBlock(lit, dst, xs, StreamAt(input, end))
    decreases |ts|
  {
    if ts == [] {
      StopTaken(lit, dst, input, c, end);
      xs := [];
    } else {
      var u := FirstToken(lit, dst, input, c, ts, end);
      var x := TokenTaken(lit, dst, input, c, u, ts[0]);
      var more := BlockTaken(lit, dst, input, u, ts[1..], end);
      xs := [x] + more;
      assert xs[1..] == more && [ts[0]] + ts[1..] == ts;
    }
  }

  // ----- the header of a dynamic block -----

  /** An operation that is read is one that can be said. */
  lemma OpTaken(cl: Sizes, input: seq<nat>, c: nat, op: SizeOp, end: nat)
    requires |cl| == ALL_FIELDS && Fits(cl) && ReadOp(cl, input, c) == Op(op, end)
    ensures Sayable(cl, op) && StreamAt(input, c) == EmitOp(cl, op, StreamAt(input, end))
      && end == c + OpWidth(cl, op)
  {
    Pow2Values();
    var s := Decoded(cl, StreamAt(input, c));
    DecodedWasEmitted(cl, StreamAt(input, c), s);
    var u := c + cl[s];
    SymbolTaken(cl, input, c, s, u);
    BitsTaken(input, u, ExtraWidth(op), end);
  }

  lemma GivesWhatItAdds(op: SizeOp, before: Sizes, next: Sizes, zs: Sizes)
    requires Extended(op, before) == Some(next) && next <= zs
    ensures |next| == |before| + Times(op) && before <= zs && forall i :: |before| <= i < |next| ==> Gives(op, zs, i)
  {
    var u := |before|;
    assert next[..u] == before && zs[..|next|] == next;
    forall i | u <= i < |next| ensures Gives(op, zs, i) {
      assert zs[i] == next[i] && (i > 0 ==> zs[i - 1] == next[i - 1]);
    }
  }

  lemma FirstOp(cl: Sizes, input: seq<nat>, c: nat, total: nat, before: Sizes, zs: Sizes, end: nat)
    returns (op: SizeOp, u: nat, next: Sizes)
    requires |cl| == ALL_FIELDS && Bounded(before) && |before| < total
    requires ReadSizes(cl, input, c, total, before) == SizesRead(zs, end)
    ensures ReadOp(cl, input, c) == Op(op, u) && Extended(op, before) == Some(next) && Bounded(next) && |next| <= total
    ensures |next| > |before| && ReadSizes(cl, input, u, total, next) == SizesRead(zs, end)
  {
    var step := ReadOp(cl, input, c);
    op, u := step.op, step.to;
    next := Extended(op, before).value;
  }

  /** Sizes that are read have been given by operations. */
  lemma {:induction false} SizesTaken(cl: Sizes, input: seq<nat>, c: nat, total: nat, before: Sizes, zs: Sizes,
      end: nat)
    returns (ops: seq<SizeOp>)
    requires |cl| == ALL_FIELDS && Fits(cl) && Bounded(before) && |before| <= total
    requires ReadSizes(cl, input, c, total, before) == SizesRead(zs, end)
    ensures before <= zs && |zs| == total && AllSayable(cl, ops) && Lists(ops, zs, |before|)
    ensures end == c + OpsWidth(cl, ops) && StreamAt(input, c) == EmitOps(cl, ops, StreamAt(input, end))
    decreases total - |before|
  {
    if |before| == total {
      ops := [];
    } else {
      var op, u, next := FirstOp(cl, input, c, total, before, zs, end);
      OpTaken(cl, input, c, op, u);
      var more := SizesTaken(cl, input, u, total, next, zs, end);
      GivesWhatItAdds(op, before, next, zs);
      ops := [op] + more;
      assert ops[1..] == more;
    }
  }

  /** The code for sizes that is read is one of which as many sizes are listed. */
  lemma {:induction false} CodeSizesRead(input: seq<nat>, c: nat, n: nat)
    requires n <= ALL_FIELDS
    ensures var cl := CodeSizes(input, c, n);
      forall s: nat :: s < ALL_FIELDS ==>
        cl[s] == if FieldOf(s) < n then Low(StreamAt(input, c + 3 * FieldOf(s)), SIZE_BITS) else 0
  {
    if n > 0 {
      var k := n - 1;
      CodeSizesRead(input, c, k);
      FieldOfSymbol(k);
      var cl := CodeSizes(input, c, n);
      forall s: nat | s < ALL_FIELDS
        ensures cl[s] == if FieldOf(s) < n then Low(StreamAt(input, c + 3 * FieldOf(s)), SIZE_BITS) else 0
      {
        if FieldOf(s) == k { assert SymbolAt(FieldOf(s)) == s; }
      }
    }
  }

  lemma {:induction false} FieldsTaken(cl: Sizes, input: seq<nat>, c: nat, n: nat, count: nat, u: nat, end: nat)
    requires |cl| == ALL_FIELDS && n <= count <= ALL_FIELDS && u == c + 3 * n && end == c + 3 * count
    requires forall i: nat :: i < count ==> FieldRead(cl, input, c, i)
    ensures StreamAt(input, u) == EmitFields(cl, n, count, StreamAt(input, end))
    decreases count - n
  {
    if n < count {
      assert FieldRead(cl, input, c, n);
      BitsTaken(input, u, SIZE_BITS, u + 3);
      FieldsTaken(cl, input, c, n + 1, count, u + 3, end);
    }
  }

  lemma CodeSizesTaken(input: seq<nat>, c: nat, count: nat, cl: Sizes, none: nat, end: nat)
    requires 4 <= count <= ALL_FIELDS && cl == CodeSizes(input, c, count) && Kraft(cl) && none == 0
      && end == c + 3 * count
    ensures SizeCode(cl, count) && StreamAt(input, c) == EmitFields(cl, none, count, StreamAt(input, end))
  {
    Pow2Values();
    CodeSizesRead(input, c, count);
    forall i: nat | i < count ensures FieldRead(cl, input, c, i) {
      FieldOfSymbol(i);
    }
    FieldsTaken(cl, input, c, none, count, c, end);
  }

  lemma CountsTaken(input: seq<nat>, c: nat, end: nat)
    requires end == c + 14
    ensures StreamAt(input, c) ==
      EmitCounts(LiteralCodes(input, c) - 257, DistanceCodes(input, c) - 1, SizeCodes(input, c) - 4,
                 StreamAt(input, end))
  {
    BitsTaken(input, c, COUNT_BITS, c + 5);
    BitsTaken(input, c + 5, COUNT_BITS, c + 10);
    BitsTaken(input, c + 10, SIZES_BITS, end);
  }

  lemma ReadAfterFields(input: seq<nat>, c: nat, count: nat, total: nat, cl: Sizes, v: nat, none: Sizes, zs: Sizes,
      end: nat)
    requires count <= ALL_FIELDS && ListedSizes(input, c, count, total) == SizesRead(zs, end)
    requires cl == CodeSizes(input, c, count) && v == c + 3 * count && none == []
    ensures Kraft(cl) && ReadSizes(cl, input, v, total, none) == SizesRead(zs, end)
  {}

  lemma ListingIs(input: seq<nat>, c: nat, v: nat, l: Listing, none: nat, rest: nat)
    requires SizeCode(l.cl, l.count) && AllSayable(l.cl, l.ops) && none <= l.count
    requires StreamAt(input, c) == EmitFields(l.cl, none, l.count, StreamAt(input, v))
    requires StreamAt(input, v) == EmitOps(l.cl, l.ops, rest)
    ensures StreamAt(input, c) == EmitListing(l, none, rest)
  {}

  lemma ListingTaken(input: seq<nat>, c: nat, count: nat, total: nat, none: nat, zs: Sizes, end: nat)
    returns (l: Listing)
    requires 4 <= count <= ALL_FIELDS && none == 0 && ListedSizes(input, c, count, total) == SizesRead(zs, end)
    ensures l.count == count && SizeCode(l.cl, count) && AllSayable(l.cl, l.ops) && Lists(l.ops, zs, none)
    ensures end == c + 3 * count + OpsWidth(l.cl, l.ops)
      && StreamAt(input, c) == EmitListing(l, none, StreamAt(input, end))
  {
    var cl, v, before := CodeSizes(input, c, count), c + 3 * count, [];
    ReadAfterFields(input, c, count, total, cl, v, before, zs, end);
    CodeSizesTaken(input, c, count, cl, none, v);
    SizeCodeFits(cl, count);
    var ops := SizesTaken(cl, input, v, total, before, zs, end);
    l := Listing(cl, count, ops);
    ListingIs(input, c, v, l, none, StreamAt(input, end));
  }

  lemma HeaderParts(input: seq<nat>, c: nat, lit: Sizes, dst: Sizes, end: nat, u: nat, total: nat, zs: Sizes)
    requires ReadHeader(input, c) == Header(lit, dst, end) && u == c + 14 && zs == lit + dst && total == |zs|
    ensures LengthCode(lit) && DistanceCode(dst) && Kraft(lit) && Kraft(dst)
    ensures |lit| == LiteralCodes(input, c) && |dst| == DistanceCodes(input, c)
    ensures ListedSizes(input, u, SizeCodes(input, c), total) == SizesRead(zs, end)
  {
    assert zs == HeaderSizes(input, c).sizes;
  }

  lemma HeaderIsWritten(lit: Sizes, dst: Sizes, l: Listing, none: nat, rest: nat)
    requires Announced(lit, dst, l) && none == 0
    ensures EmitHeader(lit, dst, l, rest) ==
      EmitCounts(|lit| - 257, |dst| - 1, l.count - 4, EmitListing(l, none, rest))
  {}

  /** A header that is read announces both codes, by some listing. */
  lemma HeaderTaken(input: seq<nat>, c: nat, lit: Sizes, dst: Sizes, end: nat) returns (l: Listing)
    requires ReadHeader(input, c) == Header(lit, dst, end)
    ensures Announced(lit, dst, l) && StreamAt(input, c) == EmitHeader(lit, dst, l, StreamAt(input, end))
      && end == c + HeaderWidth(l)
  {
    var u, none, zs := c + 14, 0, lit + dst;
    HeaderParts(input, c, lit, dst, end, u, |zs|, zs);
    CountsTaken(input, c, u);
    l := ListingTaken(input, u, SizeCodes(input, c), |zs|, none, zs, end);
    HeaderIsWritten(lit, dst, l, none, StreamAt(input, end));
  }

  // ----- stored blocks -----

  lemma {:induction false} BytesTaken(input: seq<nat>, j: nat, bytes: seq<nat>, c: nat, end: nat)
    requires AreBytes(input) && j + |bytes| <= |input| && input[j..j + |bytes|] == bytes
    requires c == 8 * j && end == 8 * (j + |bytes|)
    ensures StreamAt(input, c) == EmitBytes(bytes, StreamAt(input, end))
    decreases |bytes|
  {
    if bytes != [] {
      ByteAt(input, j);
      BitsTaken(input, c, BYTE, c + 8);
      assert bytes[0] == input[j] && bytes[1..] == input[j + 1..j + 1 + |bytes[1..]|];
      BytesTaken(input, j + 1, bytes[1..], c + 8, end);
    }
  }

  lemma LengthsGiven(input: seq<nat>, k: nat, bytes: seq<nat>)
    requires AreBytes(input) && k + 4 + |bytes| <= |input| && bytes == input[k + 4..k + 4 + |bytes|]
    requires ByteOf(input, k) + 256 * ByteOf(input, k + 1) == |bytes|
    requires |bytes| + (ByteOf(input, k + 2) + 256 * ByteOf(input, k + 3)) == 0xffff
    ensures |bytes| < 65536 && input[k..k + 4 + |bytes|] == WithLengths(bytes)
  {
    var n, m := |bytes|, 65535 - |bytes|;
    assert input[k] == n % 256 && input[k + 1] == n / 256 && input[k + 2] == m % 256 && input[k + 3] == m / 256;
    assert input[k..k + 4 + n] == [input[k], input[k + 1], input[k + 2], input[k + 3]] + input[k + 4..k + 4 + n];
  }

  /** A stored block that is read has been written, with something to fill it up to the byte boundary. */
  lemma StoredTaken(input: seq<nat>, c: nat, bytes: seq<nat>, n: nat, end: nat)
    requires AreBytes(input) && StoredEnd(input, c, bytes) == end && n == 8 * Boundary(c) - c
    ensures AreBytes(bytes) && |bytes| < 65536 && end == 8 * (Boundary(c) + 4 + |bytes|) <= 8 * |input|
    ensures StreamAt(input, c) ==
      Front(Low(StreamAt(input, c), n), n, EmitBytes(WithLengths(bytes), StreamAt(input, end)))
  {
    var k := Boundary(c);
    LengthsGiven(input, k, bytes);
    BitsTaken(input, c, n, 8 * k);
    BytesTaken(input, k, WithLengths(bytes), 8 * k, end);
  }

  // ----- blocks -----

  lemma RawTaken(input: seq<nat>, c: nat, bytes: seq<nat>, u: nat, end: nat) returns (p: Plan)
    requires AreBytes(input) && u == c + 1 && Low(StreamAt(input, u), KIND_BITS) == 0
      && StoredEnd(input, c + 3, bytes) == end
    ensures p.Raw? && Sound(p) && BlockOf(p) == Stored(bytes) && PlanEnd(p, c) == end <= 8 * |input|
    ensures StreamAt(input, u) == EmitBody(p, c, StreamAt(input, end))
  {
    var at := c + 3;
    var n := 8 * Boundary(at) - at;
    StoredTaken(input, at, bytes, n, end);
    BitsTaken(input, u, KIND_BITS, at);
    p := Raw(bytes, StreamAt(input, at));
  }

  lemma PackedTaken(input: seq<nat>, c: nat, lit: Sizes, dst: Sizes, ts: seq<Token>, u: nat, at: nat, to: nat, end: nat)
    returns (p: Plan)
    requires u == c + 1 && at == c + 3
    requires TablesAt(input, at, Low(StreamAt(input, u), KIND_BITS)) == Header(lit, dst, to)
      && BlockEnd(lit, dst, input, to, ts) == end
    ensures p.Packed? && Sound(p) && BlockOf(p) == Coded(lit, dst, ts) && PlanEnd(p, c) == end
    ensures StreamAt(input, u) == EmitBody(p, c, StreamAt(input, end))
  {
    FitsIsKraft(lit);
    FitsIsKraft(dst);
    var xs := BlockTaken(lit, dst, input, to, ts, end);
    BlockWidthIs(input, to, lit, dst, xs, ts, end);
    BitsTaken(input, u, KIND_BITS, at);
    if Low(StreamAt(input, u), KIND_BITS) == 1 {
      p := Packed(None, lit, dst, xs);
    } else {
      var l := HeaderTaken(input, at, lit, dst, to);
      p := Packed(Some(l), lit, dst, xs);
    }
  }

  lemma BlockWidthIs(input: seq<nat>, c: nat, lit: Sizes, dst: Sizes, xs: seq<Choice>, ts: seq<Token>, end: nat)
    requires Codes(lit, dst) && AllUsable(lit, dst, xs) && TokensOf(xs) == ts
      && BlockEnd(lit, dst, input, c, ts) == end
    requires StreamAt(input, c) == EmitBlock(lit, dst, xs, StreamAt(input, end))
    ensures end == c + BlockWidth(lit, dst, xs)
  {
    BlockRoundTrip(lit, dst, xs, StreamAt(input, end), input, c, c + BlockWidth(lit, dst, xs));
  }

  /** A block that is read has been written, in some way. */
  lemma BlockIsPlan(input: seq<nat>, c: nat, b: Block, end: nat) returns (p: Plan)
    requires AreBytes(input) && BlockAt(input, c, b) == end
    ensures Sound(p) && BlockOf(p) == b && PlanEnd(p, c) == end && (p.Raw? ==> end <= 8 * |input|)
    ensures StreamAt(input, c) == EmitPlan(p, c, Final(input, c), StreamAt(input, end))
  {
    Pow2Values();
    var u, at := c + 1, c + 3;
    BitsTaken(input, c, FINAL_BITS, u);
    match b
    case Stored(bytes) =>
      p := RawTaken(input, c, bytes, u, end);
    case Coded(lit, dst, ts) =>
      var h := TablesAt(input, at, Low(StreamAt(input, u), KIND_BITS));
      p := PackedTaken(input, c, lit, dst, ts, u, at, h.to, end);
  }

  // ----- streams -----

  lemma WholeTail<T>(at: Reader<T>, stops: nat -> bool, c: nat, xs: seq<T>)
    requires Whole(at, stops, c, xs) && |xs| > 1
    ensures !stops(c) && at(c, xs[0]) >= 0 && Whole(at, stops, at(c, xs[0]), xs[1..])
  {
    var most := xs[..|xs| - 1];
    FirstItem(at, stops, c, most);
    assert most[1..] == xs[1..][..|xs[1..]| - 1];
  }

  lemma FirstBlock(input: seq<nat>, c: nat, bs: seq<Block>) returns (u: nat)
    requires Stands(input, c, bs)
    ensures BlockAt(input, c, bs[0]) == u && (Final(input, c) <==> |bs| == 1)
    ensures |bs| > 1 ==> Stands(input, u, bs[1..])
  {
    StandsIsWhole(input, c, bs);
    if |bs| > 1 {
      WholeTail(BlockReader(input), StreamStops(input), c, bs);
      u := BlockAt(input, c, bs[0]);
      StandsIsWhole(input, u, bs[1..]);
    } else {
      assert bs[..0] == [];
      u := BlockAt(input, c, bs[0]);
    }
  }

  /** The first block has been written; whatever follows it, if anything does, may be written after it.  Locked. */
  ghost predicate FirstWritten(input: seq<nat>, c: nat, p: Plan, final: bool, u: nat) {
    forall key: nat {:trigger Unlock(key)} :: Unlock(key) ==>
      && AreBytes(input) && Sound(p) && PlanEnd(p, c) == u && (p.Raw? ==> u <= 8 * |input|)
      && StreamAt(input, c) == EmitPlan(p, c, final, StreamAt(input, u))
  }

  lemma FirstTaken(input: seq<nat>, c: nat, bs: seq<Block>) returns (p: Plan, u: nat)
    requires AreBytes(input) && Stands(input, c, bs)
    ensures FirstWritten(input, c, p, |bs| == 1, u) && BlockOf(p) == bs[0]
    ensures |bs| > 1 ==> Stands(input, u, bs[1..])
  {
    u := FirstBlock(input, c, bs);
    p := BlockIsPlan(input, c, bs[0], u);
  }

  lemma WrittenOne(input: seq<nat>, c: nat, p: Plan, u: nat)
    requires FirstWritten(input, c, p, true, u)
    ensures StreamWritten(input, c, [p], StreamAt(input, u))
  {
    assert Unlock(0);
    assert [p][1..] == [];
    assert EmitStream([p], c, StreamAt(input, u)) == EmitPlan(p, c, true, EmitStream([], u, StreamAt(input, u)));
    assert StoredWithin([p], c, 8 * |input|);
  }

  lemma WrittenMore(input: seq<nat>, c: nat, p: Plan, u: nat, more: seq<Plan>, rest: nat)
    requires FirstWritten(input, c, p, false, u) && more != [] && StreamWritten(input, u, more, rest)
    ensures StreamWritten(input, c, [p] + more, rest)
  {
    assert Unlock(0);
    var ps := [p] + more;
    assert ps[0] == p && ps[1..] == more;
  }

  lemma BlocksSplit(ps: seq<Plan>, p: Plan, more: seq<Plan>, bs: seq<Block>)
    requires bs != [] && ps == [p] + more && BlockOf(p) == bs[0] && BlocksOf(more) == bs[1..]
    ensures BlocksOf(ps) == bs
  {
    BlocksOfCons(ps, p, more);
  }

  /** A stream that stands somewhere has been written there, in some way. */
  lemma {:induction false} StreamTaken(input: seq<nat>, c: nat, bs: seq<Block>) returns (ps: seq<Plan>, rest: nat)
    requires AreBytes(input) && Stands(input, c, bs)
    ensures ps != [] && BlocksOf(ps) == bs && StreamWritten(input, c, ps, rest)
    decreases |bs|
  {
    var p, u := FirstTaken(input, c, bs);
    if |bs| == 1 {
      rest := StreamAt(input, u);
      ps := [p];
      WrittenOne(input, c, p, u);
      BlocksSplit(ps, p, [], bs);
    } else {
      var more;
      more, rest := StreamTaken(input, u, bs[1..]);
      ps := [p] + more;
      WrittenMore(input, c, p, u, more, rest);
      BlocksSplit(ps, p, more, bs);
    }
  }

  /** Two bytes of a header: some window size and level, method 8, no preset dictionary, and check bits that make both
      bytes together a multiple of 31. */
  predicate HeaderBytes(cmf: nat, flg: nat, window: nat, level: nat, check: nat) {
    && window < 16 && level < 4 && check < 32 && cmf == 16 * window + 8 && flg == 64 * level + check
    && (256 * cmf + flg) % 31 == 0
  }

  lemma BytesAccepted(cmf: nat, flg: nat, window: nat, level: nat, check: nat)
    requires HeaderBytes(cmf, flg, window, level, check)
    ensures cmf % 16 == 8 && flg / 32 % 2 == 0 && (cmf * 256 + flg) % 31 == 0
  {
    assert flg / 32 == 2 * level;
  }

  lemma BytesSplit(cmf: nat, flg: nat)
    requires cmf < 256 && flg < 256 && cmf % 16 == 8 && flg / 32 % 2 == 0 && (cmf * 256 + flg) % 31 == 0
    ensures HeaderBytes(cmf, flg, cmf / 16, flg / 64, flg % 32)
  {}

  /** Just these headers are accepted; past the end of the input, bytes count as zero. */
  lemma HeaderOkExactly(input: seq<nat>)
    requires AreBytes(input)
    ensures HeaderOk(input) <==>
      exists window, level, check :: HeaderBytes(ByteOf(input, 0), ByteOf(input, 1), window, level, check)
  {
    var cmf, flg := ByteOf(input, 0), ByteOf(input, 1);
    if HeaderOk(input) { BytesSplit(cmf, flg); }
    forall window, level, check | HeaderBytes(cmf, flg, window, level, check) ensures HeaderOk(input) {
      BytesAccepted(cmf, flg, window, level, check);
    }
  }

  /** The encoder writes these blocks from position c on, in some way, and whatever follows them. */
  ghost predicate Encodes(input: seq<nat>, c: nat, bs: seq<Block>) {
    exists ps, rest :: ps != [] && BlocksOf(ps) == bs && StreamWritten(input, c, ps, rest)
  }

  /** An input holds a stream exactly if the encoder writes it there: after a header, if there is one, its blocks stand
      as written, stored or with listed or the fixed codes, and anything follows. */
  lemma HoldsExactly(input: seq<nat>, header: bool, bs: seq<Block>)
    requires AreBytes(input)
    ensures Holds(input, header, bs) <==> (header ==> HeaderOk(input)) && Encodes(input, if header then 16 else 0, bs)
  {
    var c := if header then 16 else 0;
    if Holds(input, header, bs) {
      var ps, rest := StreamTaken(input, c, bs);
    }
    forall ps, rest | ps != [] && BlocksOf(ps) == bs && StreamWritten(input, c, ps, rest)
      ensures Stands(input, c, bs)
    {
      StreamRoundTrip(input, c, ps, rest);
    }
  }
}
