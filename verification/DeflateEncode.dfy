/** An encoder for blocks of tokens, and that decoding undoes it. */
module DeflateEncode {
  import opened Bits
  import opened CanonicalCode
  import opened Succession
  import opened ZBuf
  import opened Deflate
  import opened DeflateStream

  /** How a token is written: a literal, or a length and a distance, each as one of the ranges of
      the format with the value of its extra bits. */
  datatype Choice = Byte(byte: nat) | Pair(range: nat, extra: nat, distance: nat, farther: nat)

  function TokenOf(x: Choice): Token {
    match x
    case Byte(b) => Literal(b)
    case Pair(r, e, d, f) => Copy(LengthBase(r) + e, DistanceBase(d) + f)
  }

  ghost predicate GoodLength(lit: Sizes, r: nat, e: nat) {
    257 + r < |lit| && lit[257 + r] > 0 && e < Pow2(LengthExtra(r))
  }

  ghost predicate GoodDistance(dst: Sizes, d: nat, f: nat) {
    d < |dst| && dst[d] > 0 && f < Pow2(DistanceExtra(d))
  }

  /** Two codes, the first with a symbol for the end of the block. */
  ghost predicate Codes(lit: Sizes, dst: Sizes) {
    LengthCode(lit) && DistanceCode(dst) && Fits(lit) && Fits(dst) && |lit| > 256 && lit[256] > 0
  }

  ghost predicate Usable(lit: Sizes, dst: Sizes, x: Choice) {
    match x
    case Byte(b) => b < 256 && b < |lit| && lit[b] > 0
    case Pair(r, e, d, f) => GoodLength(lit, r, e) && GoodDistance(dst, d, f)
  }

  /** A distance and what follows it. */
  ghost function EmitDistance(dst: Sizes, d: nat, f: nat, rest: nat): nat
    requires GoodDistance(dst, d, f)
  {
    Emit(dst, d, Front(f, DistanceExtra(d), rest))
  }

  /** The stream that starts with the choice and goes on with `rest`. */
  ghost function EmitChoice(lit: Sizes, dst: Sizes, x: Choice, rest: nat): nat
    requires Usable(lit, dst, x)
  {
    match x
    case Byte(b) => Emit(lit, b, rest)
    case Pair(r, e, d, f) => Emit(lit, 257 + r, Front(e, LengthExtra(r), EmitDistance(dst, d, f, rest)))
  }

  /** How many bits the choice takes. */
  ghost function Width(lit: Sizes, dst: Sizes, x: Choice): nat
    requires Usable(lit, dst, x)
  {
    match x
    case Byte(b) => lit[b]
    case Pair(r, _, d, _) => lit[257 + r] + (LengthExtra(r) + (dst[d] + DistanceExtra(d)))
  }

  lemma EmitDecodes(z: Sizes, i: nat, rest: nat)
    requires Fits(z) && Bounded(z) && i < |z| && z[i] > 0
    ensures Decoded(z, Emit(z, i, rest)) == i && Shr(Emit(z, i, rest), z[i]) == rest
  {
    EmitMatches(z, i, rest);
    DecodedIs(z, Emit(z, i, rest), i);
  }

  lemma ShiftTwice(w: nat, a: nat, x: nat, n: nat, rest: nat, m: nat)
    requires Shr(w, a) == Front(x, n, rest) && x < Pow2(n) && m == a + n
    ensures Low(Shr(w, a), n) == x && Shr(w, m) == rest
  {
    InFront(x, n, rest);
    ShrOn(w, a, n, m);
  }

  lemma DistanceRoundTrip(dst: Sizes, d: nat, f: nat, rest: nat, length: nat, c: nat, n: nat, end: nat)
    requires DistanceCode(dst) && Fits(dst) && GoodDistance(dst, d, f) && n == dst[d] + DistanceExtra(d) && end == c + n
    ensures var w := EmitDistance(dst, d, f, rest);
      ReadDistance(dst, w, length, c) == Next(Copy(length, DistanceBase(d) + f), end) && Shr(w, n) == rest
  {
    var far, w := Front(f, DistanceExtra(d), rest), EmitDistance(dst, d, f, rest);
    EmitDecodes(dst, d, far);
    ShiftTwice(w, dst[d], f, DistanceExtra(d), rest, n);
  }

  /** Reading a length's extra bits and then the distance after them. */
  lemma PairRoundTrip(lit: Sizes, dst: Sizes, r: nat, e: nat, d: nat, f: nat, rest: nat, c: nat, n: nat, end: nat)
    requires Codes(lit, dst) && GoodLength(lit, r, e) && GoodDistance(dst, d, f)
    requires n == LengthExtra(r) + (dst[d] + DistanceExtra(d)) && end == c + n
    ensures var v := Front(e, LengthExtra(r), EmitDistance(dst, d, f, rest));
      ReadLength(dst, v, 257 + r, c) == Next(TokenOf(Pair(r, e, d, f)), end) && Shr(v, n) == rest
  {
    var k, m, w := LengthExtra(r), dst[d] + DistanceExtra(d), EmitDistance(dst, d, f, rest);
    var v, u, len := Front(e, k, w), c + k, LengthBase(r) + e;
    ExtraIs(dst, r, e, w, c, u, len);
    DistanceRoundTrip(dst, d, f, rest, len, u, m, end);
    ShrOn(v, k, m, n);
  }

  lemma ExtraIs(dst: Sizes, r: nat, e: nat, w: nat, c: nat, u: nat, length: nat)
    requires DistanceCode(dst) && r < 31 && e < Pow2(LengthExtra(r)) && u == c + LengthExtra(r)
      && length == LengthBase(r) + e
    ensures var v := Front(e, LengthExtra(r), w);
      ReadLength(dst, v, 257 + r, c) == ReadDistance(dst, w, length, u) && Shr(v, LengthExtra(r)) == w
  {
    InFront(e, LengthExtra(r), w);
  }

  lemma ReadIsLength(lit: Sizes, dst: Sizes, v: nat, s: nat, w: nat, c: nat, u: nat)
    requires LengthCode(lit) && DistanceCode(dst) && s > 256 && Decoded(lit, v) == s && Shr(v, lit[s]) == w
      && u == c + lit[s]
    ensures Read(lit, dst, v, c) == ReadLength(dst, w, s, u)
  {}

  /** Reading gives back the token that was written, and leaves the rest. */
  lemma ChoiceRoundTrip(lit: Sizes, dst: Sizes, x: Choice, rest: nat, c: nat, n: nat, end: nat)
    requires Codes(lit, dst) && Usable(lit, dst, x) && n == Width(lit, dst, x) && end == c + n
    ensures var v := EmitChoice(lit, dst, x, rest); Read(lit, dst, v, c) == Next(TokenOf(x), end) && Shr(v, n) == rest
  {
    match x
    case Byte(b) => EmitDecodes(lit, b, rest);
    case Pair(r, e, d, f) =>
      var s, u, m := 257 + r, c + lit[257 + r], LengthExtra(r) + (dst[d] + DistanceExtra(d));
      var w := Front(e, LengthExtra(r), EmitDistance(dst, d, f, rest));
      var v := Emit(lit, s, w);
      EmitDecodes(lit, s, w);
      PairRoundTrip(lit, dst, r, e, d, f, rest, u, m, end);
      ReadIsLength(lit, dst, v, s, w, c, u);
      ShrOn(v, lit[s], m, n);
  }

  // ----- blocks -----

  ghost predicate AllUsable(lit: Sizes, dst: Sizes, xs: seq<Choice>) {
    xs == [] || (Usable(lit, dst, xs[0]) && AllUsable(lit, dst, xs[1..]))
  }

  function TokensOf(xs: seq<Choice>): seq<Token> {
    if xs == [] then [] else [TokenOf(xs[0])] + TokensOf(xs[1..])
  }

  ghost function BlockWidth(lit: Sizes, dst: Sizes, xs: seq<Choice>): nat
    requires AllUsable(lit, dst, xs) && |lit| > 256
  {
    if xs == [] then lit[256] else Width(lit, dst, xs[0]) + BlockWidth(lit, dst, xs[1..])
  }

  /** The tokens, the end of the block, and what follows it. */
  ghost function EmitBlock(lit: Sizes, dst: Sizes, xs: seq<Choice>, rest: nat): nat
    requires AllUsable(lit, dst, xs) && |lit| > 256 && lit[256] > 0
  {
    if xs == [] then Emit(lit, 256, rest) else EmitChoice(lit, dst, xs[0], EmitBlock(lit, dst, xs[1..], rest))
  }

  /** A block is read back as the tokens that were written, up to exactly where it ends. */
  lemma {:induction false} BlockRoundTrip(lit: Sizes, dst: Sizes, xs: seq<Choice>, rest: nat, input: seq<nat>,
      c: nat, end: nat)
    requires Codes(lit, dst) && AllUsable(lit, dst, xs) && StreamAt(input, c) == EmitBlock(lit, dst, xs, rest)
    requires end == c + BlockWidth(lit, dst, xs)
    ensures BlockEnd(lit, dst, input, c, TokensOf(xs)) == end && StreamAt(input, end) == rest
    decreases |xs|
  {
    if xs == [] {
      EndRoundTrip(lit, dst, rest, input, c);
    } else {
      var x, ys := xs[0], xs[1..];
      var u, w := c + Width(lit, dst, x), EmitBlock(lit, dst, ys, rest);
      FirstRoundTrip(lit, dst, x, w, input, c, u);
      BlockRoundTrip(lit, dst, ys, rest, input, u, end);
      BlockEndCons(lit, dst, input, c, TokenOf(x), TokensOf(ys), u, TokensOf(xs), end);
    }
  }

  lemma EndRoundTrip(lit: Sizes, dst: Sizes, rest: nat, input: seq<nat>, c: nat)
    requires Codes(lit, dst) && StreamAt(input, c) == Emit(lit, 256, rest)
    ensures BlockEnd(lit, dst, input, c, []) == c + lit[256] && StreamAt(input, c + lit[256]) == rest
  {
    EmitDecodes(lit, 256, rest);
    ShrShr(LittleEndian(input), c, lit[256]);
  }

  lemma FirstRoundTrip(lit: Sizes, dst: Sizes, x: Choice, rest: nat, input: seq<nat>, c: nat, u: nat)
    requires Codes(lit, dst) && Usable(lit, dst, x) && StreamAt(input, c) == EmitChoice(lit, dst, x, rest)
    requires u == c + Width(lit, dst, x)
    ensures ReadAt(lit, dst, input, c) == Next(TokenOf(x), u) && StreamAt(input, u) == rest
  {
    ChoiceRoundTrip(lit, dst, x, rest, c, Width(lit, dst, x), u);
    ShrOn(LittleEndian(input), c, Width(lit, dst, x), u);
  }

  lemma BlockEndCons(lit: Sizes, dst: Sizes, input: seq<nat>, c: nat, t: Token, ts: seq<Token>, u: nat,
      all: seq<Token>, end: nat)
    requires LengthCode(lit) && DistanceCode(dst) && ReadAt(lit, dst, input, c) == Next(t, u)
    requires all == [t] + ts && BlockEnd(lit, dst, input, u, ts) == end
    ensures BlockEnd(lit, dst, input, c, all) == end
  {
    EndOfCons(TokenReader(lit, dst, input), BlockStops(lit, dst, input), c, t, ts);
  }

  // ----- every token can be written -----

  /** Some symbol with some extra bits means the length n. */
  lemma LengthCovered(n: nat) returns (s: nat, e: nat)
    requires 3 <= n <= 258
    ensures 257 <= s < 286 && e < Pow2(LengthExtra(s - 257)) && LengthBase(s - 257) + e == n
  {
    LengthValues();
    if n == 258 {
      s, e := 285, 0;
    } else {
      var i := LengthSymbol(n, 27);
      s, e := 257 + i, n - LengthBase(i);
    }
  }

  lemma {:induction false} LengthSymbol(n: nat, i: nat) returns (s: nat)
    requires 3 <= n < LengthBase(i) + Pow2(LengthExtra(i)) && i < 28
    ensures s <= i && LengthBase(s) <= n < LengthBase(s) + Pow2(LengthExtra(s))
  {
    s := i;
    if n < LengthBase(i) { s := LengthSymbol(n, i - 1); }
  }

  lemma DistanceCovered(n: nat) returns (s: nat, e: nat)
    requires 1 <= n <= 32768
    ensures s < 30 && e < Pow2(DistanceExtra(s)) && DistanceBase(s) + e == n
  {
    DistanceValues();
    Pow2Values();
    s := DistanceSymbol(n, 29);
    e := n - DistanceBase(s);
  }

  lemma {:induction false} DistanceSymbol(n: nat, i: nat) returns (s: nat)
    requires 1 <= n < DistanceBase(i) + Pow2(DistanceExtra(i)) && i < 30
    ensures s <= i && DistanceBase(s) <= n < DistanceBase(s) + Pow2(DistanceExtra(s))
  {
    s := i;
    if n < DistanceBase(i) { s := DistanceSymbol(n, i - 1); }
  }
}
