/** Whole compressed streams as bytes, and that decoding gives back their tokens. */
module DeflateBytes {
  import opened Wrappers
  import opened Bits
  import opened CanonicalCode
  import opened Succession
  import opened ZBuf
  import opened Deflate
  import opened DeflateStream
  import opened DeflateEncode
  import opened DynamicEncode
  import opened InflateStream

  // ----- bytes -----

  /** The base-256 digits of v, lowest first. */
  function Bytes(v: nat): seq<nat> {
    if v == 0 then [] else [v % 256] + Bytes(v / 256)
  }

  lemma {:induction false} BytesRoundTrip(v: nat)
    ensures AreBytes(Bytes(v)) && LittleEndian(Bytes(v)) == v
  {
    if v > 0 {
      BytesRoundTrip(v / 256);
      assert Bytes(v)[1..] == Bytes(v / 256);
    }
  }

  function ZeroBytes(m: nat): seq<nat> {
    seq(m, _ => 0)
  }

  lemma {:induction false} ZeroBytesAddNothing(b: seq<nat>, m: nat)
    ensures LittleEndian(b + ZeroBytes(m)) == LittleEndian(b)
    decreases |b| + m
  {
    if b != [] {
      assert (b + ZeroBytes(m))[1..] == b[1..] + ZeroBytes(m);
      ZeroBytesAddNothing(b[1..], m);
    } else if m > 0 {
      assert (b + ZeroBytes(m))[1..] == b + ZeroBytes(m - 1);
      ZeroBytesAddNothing(b, m - 1);
    } else {
      assert b + ZeroBytes(m) == b;
    }
  }

  /** After some bytes comes the stream v, and zeros as many as one likes. */
  lemma BytesBehind(front: seq<nat>, v: nat, c: nat, m: nat)
    requires AreBytes(front) && c == 8 * |front|
    ensures AreBytes(front + Bytes(v) + ZeroBytes(m)) && StreamAt(front + Bytes(v) + ZeroBytes(m), c) == v
  {
    BytesRoundTrip(v);
    var input := front + Bytes(v) + ZeroBytes(m);
    DropBytes(input, |front|);
    assert input[|front|..] == Bytes(v) + ZeroBytes(m);
    ZeroBytesAddNothing(Bytes(v), m);
  }

  // ----- stored blocks -----

  /** The bytes, and what follows them. */
  function EmitBytes(bytes: seq<nat>, rest: nat): nat {
    if bytes == [] then rest else Front(bytes[0], BYTE, EmitBytes(bytes[1..], rest))
  }

  lemma {:induction false} BytesAreRead(input: seq<nat>, j: nat, bytes: seq<nat>, rest: nat, c: nat)
    requires AreBytes(input) && AreBytes(bytes) && StreamAt(input, c) == EmitBytes(bytes, rest) && c == 8 * j
    requires j + |bytes| <= |input|
    ensures input[j..j + |bytes|] == bytes && StreamAt(input, 8 * (j + |bytes|)) == rest
    decreases |bytes|
  {
    if bytes != [] {
      Pow2Values();
      ByteAt(input, j);
      TakeBits(input, c, bytes[0], BYTE, EmitBytes(bytes[1..], rest), c + 8);
      BytesAreRead(input, j + 1, bytes[1..], rest, c + 8);
      assert input[j..j + |bytes|] == [input[j]] + input[j + 1..j + 1 + |bytes[1..]|];
    }
  }

  /** The first byte boundary from position c on. */
  function Boundary(c: nat): (k: nat)
    ensures c <= 8 * k < c + 8
  {
    (c + 7) / 8
  }

  /** How many bytes there are, what is left to 65535 of this, and the bytes. */
  function WithLengths(bytes: seq<nat>): seq<nat>
    requires |bytes| < 65536
  {
    var n, m := |bytes|, 65535 - |bytes|;
    [n % 256, n / 256, m % 256, m / 256] + bytes
  }

  lemma StoredRead(input: seq<nat>, k: nat, bytes: seq<nat>)
    requires |bytes| < 65536 && k + 4 + |bytes| <= |input| && input[k..k + 4 + |bytes|] == WithLengths(bytes)
    ensures ByteOf(input, k) + 256 * ByteOf(input, k + 1) == |bytes|
    ensures ByteOf(input, k + 2) + 256 * ByteOf(input, k + 3) == 65535 - |bytes|
    ensures input[k + 4..k + 4 + |bytes|] == bytes
  {
    var all := WithLengths(bytes);
    assert forall i :: 0 <= i < 4 ==> input[k + i] == input[k..k + 4 + |bytes|][i] == all[i];
    assert input[k + 0] == all[0] && input[k + 1] == all[1] && input[k + 2] == all[2] && input[k + 3] == all[3];
    assert input[k + 4..k + 4 + |bytes|] == input[k..k + 4 + |bytes|][4..];
  }

  /** A stored block is read back, whatever fills it up to the byte boundary. */
  lemma StoredRoundTrip(input: seq<nat>, c: nat, bytes: seq<nat>, filler: nat, rest: nat, n: nat, end: nat)
    requires AreBytes(input) && AreBytes(bytes) && |bytes| < 65536
    requires n == 8 * Boundary(c) - c && end == 8 * (Boundary(c) + 4 + |bytes|) && end <= 8 * |input|
    requires StreamAt(input, c) == Front(Low(filler, n), n, EmitBytes(WithLengths(bytes), rest))
    ensures StoredEnd(input, c, bytes) == end && StreamAt(input, end) == rest
  {
    var k := Boundary(c);
    var u := 8 * k;
    TakeBits(input, c, Low(filler, n), n, EmitBytes(WithLengths(bytes), rest), u);
    BytesAreRead(input, k, WithLengths(bytes), rest, u);
    StoredRead(input, k, bytes);
  }

  // ----- blocks -----

  /** How a block is written: stored, with something to fill it up to a byte boundary; or as tokens, with codes that
      are listed, or else the fixed ones. */
  datatype Plan = Raw(bytes: seq<nat>, filler: nat)
    | Packed(listing: Option<Listing>, lit: Sizes, dst: Sizes, choices: seq<Choice>)

  ghost predicate Sound(p: Plan) {
    match p
    case Raw(bytes, _) => AreBytes(bytes) && |bytes| < 65536
    case Packed(listing, lit, dst, choices) =>
      && Codes(lit, dst) && AllUsable(lit, dst, choices)
      && if listing.Some? then Announced(lit, dst, listing.value)
         else lit == FixedLengths() && dst == FixedDistances()
  }

  function BlockOf(p: Plan): Block {
    match p
    case Raw(bytes, _) => Stored(bytes)
    case Packed(_, lit, dst, choices) => Coded(lit, dst, TokensOf(choices))
  }

  ghost function EmitCodes(p: Plan, rest: nat): nat
    requires p.Packed? && Sound(p)
  {
    if p.listing.None? then Front(1, KIND_BITS, rest)
    else Front(2, KIND_BITS, EmitHeader(p.lit, p.dst, p.listing.value, rest))
  }

  /** The block at position c after its first bit, and what follows it. */
  ghost function EmitBody(p: Plan, c: nat, rest: nat): nat
    requires Sound(p)
  {
    match p
    case Raw(bytes, filler) =>
      var n := 8 * Boundary(c + 3) - (c + 3);
      Front(0, KIND_BITS, Front(Low(filler, n), n, EmitBytes(WithLengths(bytes), rest)))
    case Packed(_, lit, dst, choices) => EmitCodes(p, EmitBlock(lit, dst, choices, rest))
  }

  /** The block at position c, marked as final or not, and what follows it. */
  ghost function EmitPlan(p: Plan, c: nat, final: bool, rest: nat): nat
    requires Sound(p)
  {
    Front(if final then 1 else 0, FINAL_BITS, EmitBody(p, c, rest))
  }

  /** Where the block at position c ends. */
  ghost function PlanEnd(p: Plan, c: nat): (end: nat)
    requires Sound(p)
    ensures end >= c
  {
    match p
    case Raw(bytes, _) => 8 * (Boundary(c + 3) + 4 + |bytes|)
    case Packed(listing, lit, dst, choices) =>
      c + 3 + (if listing.Some? then HeaderWidth(listing.value) else 0) + BlockWidth(lit, dst, choices)
  }

  lemma CodesRoundTrip(input: seq<nat>, c: nat, p: Plan, rest: nat, at: nat, to: nat)
    requires p.Packed? && Sound(p) && StreamAt(input, c) == EmitCodes(p, rest) && at == c + 2
    requires to == if p.listing.None? then at else at + HeaderWidth(p.listing.value)
    ensures TablesAt(input, at, Low(StreamAt(input, c), KIND_BITS)) == Header(p.lit, p.dst, to)
      && StreamAt(input, to) == rest
    ensures Low(StreamAt(input, c), KIND_BITS) != 0
  {
    Pow2Values();
    if p.listing.None? {
      TakeBits(input, c, 1, KIND_BITS, rest, at);
    } else {
      TakeBits(input, c, 2, KIND_BITS, EmitHeader(p.lit, p.dst, p.listing.value, rest), at);
      HeaderRoundTrip(input, at, p.lit, p.dst, p.listing.value, rest, to);
    }
  }

  lemma StartsAt(input: seq<nat>, c: nat, lit: Sizes, dst: Sizes, u: nat, at: nat, to: nat)
    requires u == c + 1 && at == c + 3 && Low(StreamAt(input, u), KIND_BITS) != 0
    requires TablesAt(input, at, Low(StreamAt(input, u), KIND_BITS)) == Header(lit, dst, to)
    ensures Starts(input, c, lit, dst, to)
  {}

  lemma PackedRoundTrip(input: seq<nat>, c: nat, p: Plan, rest: nat, u: nat, end: nat)
    requires p.Packed? && Sound(p) && u == c + 1 && StreamAt(input, u) == EmitBody(p, c, rest) && end == PlanEnd(p, c)
    ensures Ends(input, c, BlockOf(p), end) && StreamAt(input, end) == rest
  {
    var at := c + 3;
    var to := if p.listing.None? then at else at + HeaderWidth(p.listing.value);
    CodesRoundTrip(input, u, p, EmitBlock(p.lit, p.dst, p.choices, rest), at, to);
    BlockRoundTrip(p.lit, p.dst, p.choices, rest, input, to, end);
    StartsAt(input, c, p.lit, p.dst, u, at, to);
    CodedStands(input, c, p.lit, p.dst, to, TokensOf(p.choices), end);
  }

  lemma StoredStands(input: seq<nat>, c: nat, bytes: seq<nat>, u: nat, at: nat, end: nat)
    requires u == c + 1 && at == c + 3 && Low(StreamAt(input, u), KIND_BITS) == 0
      && StoredEnd(input, at, bytes) == end
    ensures Ends(input, c, Stored(bytes), end)
  {}

  lemma RawRoundTrip(input: seq<nat>, c: nat, p: Plan, rest: nat, u: nat, end: nat)
    requires p.Raw? && Sound(p) && u == c + 1 && StreamAt(input, u) == EmitBody(p, c, rest) && end == PlanEnd(p, c)
    requires AreBytes(input) && end <= 8 * |input|
    ensures Ends(input, c, BlockOf(p), end) && StreamAt(input, end) == rest
  {
    Pow2Values();
    var at := c + 3;
    var n := 8 * Boundary(at) - at;
    TakeBits(input, u, 0, KIND_BITS, Front(Low(p.filler, n), n, EmitBytes(WithLengths(p.bytes), rest)), at);
    StoredRoundTrip(input, at, p.bytes, p.filler, rest, n, end);
    StoredStands(input, c, p.bytes, u, at, end);
  }

  /** A block is read back, up to exactly where it ends. */
  lemma PlanRoundTrip(input: seq<nat>, c: nat, p: Plan, final: bool, rest: nat, end: nat)
    requires Sound(p) && StreamAt(input, c) == EmitPlan(p, c, final, rest) && end == PlanEnd(p, c)
    requires AreBytes(input) && (p.Raw? ==> end <= 8 * |input|)
    ensures Ends(input, c, BlockOf(p), end) && StreamAt(input, end) == rest && (Final(input, c) <==> final)
  {
    Pow2Values();
    var u := c + 1;
    TakeBits(input, c, if final then 1 else 0, FINAL_BITS, EmitBody(p, c, rest), u);
    if p.Raw? { RawRoundTrip(input, c, p, rest, u, end); } else { PackedRoundTrip(input, c, p, rest, u, end); }
  }

  // ----- streams -----

  ghost predicate AllSound(ps: seq<Plan>) {
    forall p :: p in ps ==> Sound(p)
  }

  function BlocksOf(ps: seq<Plan>): (bs: seq<Block>)
    ensures |bs| == |ps|
  {
    if ps == [] then [] else [BlockOf(ps[0])] + BlocksOf(ps[1..])
  }

  /** The blocks one after another from position c on, the last one marked as final, and what follows them. */
  ghost function EmitStream(ps: seq<Plan>, c: nat, rest: nat): nat
    requires AllSound(ps)
    decreases |ps|
  {
    if ps == [] then rest
    else EmitPlan(ps[0], c, |ps| == 1, EmitStream(ps[1..], PlanEnd(ps[0], c), rest))
  }

  /** Where the last block ends. */
  ghost function StreamEnd(ps: seq<Plan>, c: nat): (end: nat)
    requires AllSound(ps)
    ensures end >= c
    decreases |ps|
  {
    if ps == [] then c else StreamEnd(ps[1..], PlanEnd(ps[0], c))
  }

  /** Whatever is stored lies within the first n bits. */
  ghost predicate StoredWithin(ps: seq<Plan>, c: nat, n: nat)
    requires AllSound(ps)
    decreases |ps|
  {
    ps == [] || ((ps[0].Raw? ==> PlanEnd(ps[0], c) <= n) && StoredWithin(ps[1..], PlanEnd(ps[0], c), n))
  }

  lemma {:induction false} AllWithin(ps: seq<Plan>, c: nat, n: nat)
    requires AllSound(ps) && StreamEnd(ps, c) <= n
    ensures StoredWithin(ps, c, n)
    decreases |ps|
  {
    if ps != [] { AllWithin(ps[1..], PlanEnd(ps[0], c), n); }
  }

  lemma StandsLast(input: seq<nat>, c: nat, b: Block, u: nat)
    requires Final(input, c) && Ends(input, c, b, u)
    ensures Stands(input, c, [b])
  {
    assert Unlock(0);
    assert [b][..0] == [];
  }

  lemma StandsIsWhole(input: seq<nat>, c: nat, bs: seq<Block>)
    ensures Stands(input, c, bs) <==> Whole(BlockReader(input), StreamStops(input), c, bs)
  {
    assert Unlock(0);
  }

  lemma StandsCons(input: seq<nat>, c: nat, b: Block, u: nat, bs: seq<Block>)
    requires !Final(input, c) && Ends(input, c, b, u) && Stands(input, u, bs)
    ensures Stands(input, c, [b] + bs)
  {
    assert BlockReader(input)(c, b) == u by {
      assert Unlock(0);
    }
    StandsIsWhole(input, u, bs);
    WholeCons(BlockReader(input), StreamStops(input), c, b, bs);
    StandsIsWhole(input, c, [b] + bs);
  }

  /** The blocks have been written from position c on, the stored ones in full.  Under a lock. */
  ghost predicate StreamWritten(input: seq<nat>, c: nat, ps: seq<Plan>, rest: nat) {
    forall key: nat {:trigger Unlock(key)} :: Unlock(key) ==>
      && AllSound(ps) && StreamAt(input, c) == EmitStream(ps, c, rest)
      && AreBytes(input) && StoredWithin(ps, c, 8 * |input|)
  }

  lemma FirstPlan(input: seq<nat>, c: nat, ps: seq<Plan>, rest: nat, p: Plan, more: seq<Plan>) returns (u: nat)
    requires StreamWritten(input, c, ps, rest) && ps == [p] + more
    ensures Ends(input, c, BlockOf(p), u) && StreamWritten(input, u, more, rest) && (Final(input, c) <==> more == [])
  {
    assert Unlock(0);
    assert ps[0] == p && ps[1..] == more && Sound(p) && AllSound(more);
    u := PlanEnd(p, c);
    PlanRoundTrip(input, c, p, |ps| == 1, EmitStream(more, u, rest), u);
  }

  lemma {:induction false} StreamRoundTrip(input: seq<nat>, c: nat, ps: seq<Plan>, rest: nat)
    requires ps != [] && StreamWritten(input, c, ps, rest)
    ensures Stands(input, c, BlocksOf(ps))
    decreases |ps|
  {
    var p, more := ps[0], ps[1..];
    var u := FirstPlan(input, c, ps, rest, p, more);
    BlocksOfCons(ps, p, more);
    if more == [] {
      StandsLast(input, c, BlockOf(p), u);
    } else {
      StreamRoundTrip(input, u, more, rest);
      StandsCons(input, c, BlockOf(p), u, BlocksOf(more));
    }
  }

  lemma BlocksOfCons(ps: seq<Plan>, p: Plan, more: seq<Plan>)
    requires ps == [p] + more
    ensures BlocksOf(ps) == [BlockOf(p)] + BlocksOf(more) && (more == [] ==> BlocksOf(ps) == [BlockOf(p)])
  {
    assert ps[1..] == more;
  }

  function ZlibHeader(header: bool): seq<nat> {
    if header then [0x78, 1] else []
  }

  /** The header, the blocks, and what follows them; bytes that are zero at the very end are written as well. */
  ghost function InputOf(ps: seq<Plan>, header: bool, rest: nat): (input: seq<nat>)
    requires AllSound(ps)
    ensures ZlibHeader(header) <= input && StreamEnd(ps, 8 * |ZlibHeader(header)|) <= 8 * |input|
  {
    var front := ZlibHeader(header);
    var c := 8 * |front|;
    var written, n := front + Bytes(EmitStream(ps, c, rest)), Boundary(StreamEnd(ps, c));
    written + ZeroBytes(if n > |written| then n - |written| else 0)
  }

  lemma InputIsWritten(ps: seq<Plan>, header: bool, rest: nat, c: nat)
    requires AllSound(ps) && c == 8 * |ZlibHeader(header)|
    ensures StreamWritten(InputOf(ps, header, rest), c, ps, rest)
  {
    var front := ZlibHeader(header);
    var v, n := EmitStream(ps, c, rest), Boundary(StreamEnd(ps, c));
    var used := |front + Bytes(v)|;
    BytesBehind(front, v, c, if n > used then n - used else 0);
    AllWithin(ps, c, 8 * |InputOf(ps, header, rest)|);
  }

  /** Any blocks, stored or of tokens with any codes, are what the bytes written for them hold, whatever follows. */
  lemma BytesHold(ps: seq<Plan>, header: bool, rest: nat)
    requires ps != [] && AllSound(ps)
    ensures AreBytes(InputOf(ps, header, rest)) && Holds(InputOf(ps, header, rest), header, BlocksOf(ps))
  {
    var input, c := InputOf(ps, header, rest), 8 * |ZlibHeader(header)|;
    InputIsWritten(ps, header, rest, c);
    StreamRoundTrip(input, c, ps, rest);
    HoldsAfter(input, header, c, BlocksOf(ps));
    assert AreBytes(input) by {
      assert Unlock(0);
    }
  }

  lemma HeaderIsOk(input: seq<nat>)
    requires ZlibHeader(true) <= input
    ensures HeaderOk(input)
  {
    assert input[0] == 0x78 && input[1] == 1;
  }

  lemma HoldsAfter(input: seq<nat>, header: bool, c: nat, bs: seq<Block>)
    requires Stands(input, c, bs) && c == 8 * |ZlibHeader(header)| && ZlibHeader(header) <= input
    ensures Holds(input, header, bs)
  {
    if header { HeaderIsOk(input); }
  }

  // ----- every list of tokens -----

  /** Tokens that the format has symbols for. */
  predicate InFormat(t: Token) {
    match t
    case Literal(b) => b < 256
    case Copy(n, d) => 3 <= n <= 258 && 1 <= d <= 32768
  }

  lemma ChoiceFor(t: Token) returns (x: Choice)
    requires InFormat(t)
    ensures TokenOf(x) == t && Usable(FixedLengths(), FixedDistances(), x)
  {
    match t
    case Literal(b) => x := Byte(b);
    case Copy(n, d) =>
      var s, e := LengthCovered(n);
      var r, f := DistanceCovered(d);
      x := Pair(s - 257, e, r, f);
  }

  lemma {:induction false} ChoicesFor(ts: seq<Token>) returns (xs: seq<Choice>)
    requires forall t :: t in ts ==> InFormat(t)
    ensures TokensOf(xs) == ts && AllUsable(FixedLengths(), FixedDistances(), xs)
  {
    if ts == [] {
      xs := [];
    } else {
      var x := ChoiceFor(ts[0]);
      var more := ChoicesFor(ts[1..]);
      xs := [x] + more;
      assert xs[1..] == more;
    }
  }

  /** Every list of tokens of the format is held by some bytes; if it is legal, the decoder expands it. */
  lemma EveryTokenList(ts: seq<Token>, header: bool) returns (input: seq<nat>)
    requires forall t :: t in ts ==> InFormat(t)
    ensures AreBytes(input) && Holds(input, header, [Coded(FixedLengths(), FixedDistances(), ts)])
    ensures AllTokens([Coded(FixedLengths(), FixedDistances(), ts)]) == ts
  {
    var xs := ChoicesFor(ts);
    var p := FixedPlan(xs);
    BytesHold([p], header, 0);
    input := InputOf([p], header, 0);
    OneBlock(p, ts);
  }

  lemma FixedCodes(lit: Sizes, dst: Sizes)
    requires lit == FixedLengths() && dst == FixedDistances()
    ensures Codes(lit, dst)
  {
    FixedCodesFit();
    FitsIsKraft(lit);
    FitsIsKraft(dst);
  }

  lemma FixedPlan(xs: seq<Choice>) returns (p: Plan)
    requires AllUsable(FixedLengths(), FixedDistances(), xs)
    ensures p == Packed(None, FixedLengths(), FixedDistances(), xs) && Sound(p)
  {
    p := Packed(None, FixedLengths(), FixedDistances(), xs);
    FixedCodes(p.lit, p.dst);
  }

  lemma OneBlock(p: Plan, ts: seq<Token>)
    requires p.Packed? && TokensOf(p.choices) == ts
    ensures BlocksOf([p]) == [Coded(p.lit, p.dst, ts)] && AllTokens([Coded(p.lit, p.dst, ts)]) == ts
  {
    var b := Coded(p.lit, p.dst, ts);
    assert [b][..0] == [] && [] + ts == ts;
  }
}
