/** An encoder for the header of a dynamic block (section 3.2.7 of RFC 1951), and that reading undoes it. */
module DynamicEncode {
  import opened Wrappers
  import opened Bits
  import opened CanonicalCode
  import opened ZBuf
  import opened Deflate
  import opened DeflateEncode

  /** A code for sizes, how many of its own sizes are listed, and how the sizes of the two codes are given with it. */
  datatype Listing = Listing(cl: Sizes, count: nat, ops: seq<SizeOp>)

  /** What follows n bits. */
  lemma TakeBits(input: seq<nat>, c: nat, x: nat, n: nat, rest: nat, c': nat)
    requires StreamAt(input, c) == Front(x, n, rest) && x < Pow2(n) && c' == c + n
    ensures Low(StreamAt(input, c), n) == x && StreamAt(input, c') == rest
  {
    InFront(x, n, rest);
    ShrOn(LittleEndian(input), c, n, c');
  }

  // ----- the code for sizes -----

  const ALL_FIELDS := 19

  /** The symbol whose size field i holds: first the three for runs, then 0, and then by turns the next
      larger than 7 and the next smaller than 8. */
  function SymbolAt(i: nat): (s: nat)
    requires i < ALL_FIELDS
    ensures s < ALL_FIELDS
  {
    if i < 3 then 16 + i else if i == 3 then 0 else if i % 2 == 0 then 8 + (i - 4) / 2 else 7 - (i - 5) / 2
  }

  /** The field that holds the size of symbol s. */
  function FieldOf(s: nat): (i: nat)
    requires s < ALL_FIELDS
    ensures i < ALL_FIELDS && SymbolAt(i) == s
  {
    if s >= 16 then s - 16 else if s == 0 then 3 else if s >= 8 then 4 + 2 * (s - 8) else 5 + 2 * (7 - s)
  }

  lemma FieldOfSymbol(i: nat)
    requires i < ALL_FIELDS
    ensures FieldOf(SymbolAt(i)) == i && LENGTH_DEZIGZAG[i] == SymbolAt(i)
  {
    match i
    case 0 => case 1 => case 2 => case 3 => case 4 => case 5 => case 6 => case 7 => case 8 => case 9 => case 10
    => case 11 => case 12 => case 13 => case 14 => case 15 => case 16 => case 17 => case 18 =>
  }

  /** A code for sizes of which `count` sizes are listed: the others are zero. */
  ghost predicate SizeCode(cl: Sizes, count: nat) {
    && |cl| == ALL_FIELDS && 4 <= count <= ALL_FIELDS && Kraft(cl) && (forall s :: 0 <= s < ALL_FIELDS ==> cl[s] < 8)
    && forall s: nat :: s < ALL_FIELDS && FieldOf(s) >= count ==> cl[s] == 0
  }

  lemma SizeCodeFits(cl: Sizes, count: nat)
    requires SizeCode(cl, count)
    ensures Bounded(cl) && Fits(cl)
  {
    FitsIsKraft(cl);
  }

  /** The fields from n on, and then `rest`. */
  ghost function EmitFields(cl: Sizes, n: nat, count: nat, rest: nat): nat
    requires |cl| == ALL_FIELDS && n <= count <= ALL_FIELDS
    decreases count - n
  {
    if n == count then rest else Front(cl[SymbolAt(n)], SIZE_BITS, EmitFields(cl, n + 1, count, rest))
  }

  /** Field i is read where the fields start at position c. */
  ghost predicate FieldRead(cl: Sizes, input: seq<nat>, c: nat, i: nat)
    requires |cl| == ALL_FIELDS && i < ALL_FIELDS
  {
    Low(StreamAt(input, c + 3 * i), SIZE_BITS) == cl[SymbolAt(i)]
  }

  lemma {:induction false} FieldsRoundTrip(cl: Sizes, input: seq<nat>, c: nat, n: nat, count: nat, u: nat, rest: nat,
      end: nat)
    requires SizeCode(cl, count) && n <= count && u == c + 3 * n && end == c + 3 * count
    requires StreamAt(input, u) == EmitFields(cl, n, count, rest)
    ensures StreamAt(input, end) == rest
    ensures forall i: nat :: n <= i < count ==> FieldRead(cl, input, c, i)
    decreases count - n
  {
    if n < count {
      Pow2Values();
      TakeBits(input, u, cl[SymbolAt(n)], SIZE_BITS, EmitFields(cl, n + 1, count, rest), u + 3);
      assert FieldRead(cl, input, c, n);
      FieldsRoundTrip(cl, input, c, n + 1, count, u + 3, rest, end);
    }
  }

  /** The fields listed so far are filled in, and the others are zero. */
  lemma {:induction false} CodeSizesTo(cl: Sizes, input: seq<nat>, c: nat, n: nat)
    requires |cl| == ALL_FIELDS && n <= ALL_FIELDS && forall i: nat :: i < n ==> FieldRead(cl, input, c, i)
    ensures forall s: nat :: s < ALL_FIELDS ==> CodeSizes(input, c, n)[s] == if FieldOf(s) < n then cl[s] else 0
  {
    if n > 0 {
      var k := n - 1;
      CodeSizesTo(cl, input, c, k);
      FieldOfSymbol(k);
      assert FieldRead(cl, input, c, k);
      forall s: nat | s < ALL_FIELDS ensures CodeSizes(input, c, n)[s] == if FieldOf(s) < n then cl[s] else 0 {
        if FieldOf(s) == k { assert SymbolAt(FieldOf(s)) == s; }
      }
    }
  }

  lemma CodeSizesRoundTrip(cl: Sizes, input: seq<nat>, c: nat, count: nat, none: nat, rest: nat, end: nat)
    requires SizeCode(cl, count) && none == 0 && StreamAt(input, c) == EmitFields(cl, none, count, rest)
      && end == c + 3 * count
    ensures CodeSizes(input, c, count) == cl && StreamAt(input, end) == rest
  {
    FieldsRoundTrip(cl, input, c, none, count, c, rest, end);
    CodeSizesTo(cl, input, c, count);
    forall s: nat | s < ALL_FIELDS ensures CodeSizes(input, c, count)[s] == cl[s] {}
  }

  // ----- the sizes -----

  /** The symbol for an operation, and its extra bits: symbol 16 repeats the size before it three to six times,
      symbol 17 gives three to ten zeros, and symbol 18 eleven to 138. */
  function SymbolOf(op: SizeOp): nat {
    match op
    case One(s) => s
    case Again(_) => 16
    case Zeros(n) => if n <= 10 then 17 else 18
  }

  function ExtraWidth(op: SizeOp): nat {
    match op
    case One(_) => 0
    case Again(_) => 2
    case Zeros(n) => if n <= 10 then 3 else 7
  }

  function ExtraOf(op: SizeOp): int {
    match op
    case One(_) => 0
    case Again(n) => n - 3
    case Zeros(n) => if n <= 10 then n - 3 else n - 11
  }

  /** The code for sizes can say it. */
  ghost predicate Sayable(cl: Sizes, op: SizeOp) {
    && SymbolOf(op) < |cl| == ALL_FIELDS && cl[SymbolOf(op)] > 0
    && match op
       case One(s) => s < 16
       case Again(n) => 3 <= n <= 6
       case Zeros(n) => 3 <= n <= 138
  }

  ghost predicate AllSayable(cl: Sizes, ops: seq<SizeOp>) {
    ops == [] || (Sayable(cl, ops[0]) && AllSayable(cl, ops[1..]))
  }

  function Times(op: SizeOp): nat {
    match op
    case One(_) => 1
    case Again(n) => n
    case Zeros(n) => n
  }

  /** The operation gives size i of the list. */
  predicate Gives(op: SizeOp, zs: Sizes, i: nat)
    requires i < |zs|
  {
    match op
    case One(s) => zs[i] == s
    case Again(_) => i > 0 && zs[i] == zs[i - 1]
    case Zeros(_) => zs[i] == 0
  }

  /** The operations give the list from position `at` on. */
  ghost predicate Lists(ops: seq<SizeOp>, zs: Sizes, at: nat)
    requires at <= |zs|
    decreases |ops|
  {
    if ops == [] then at == |zs|
    else
      var n := Times(ops[0]);
      && at + n <= |zs| && (forall i :: at <= i < at + n ==> Gives(ops[0], zs, i))
      && Lists(ops[1..], zs, at + n)
  }

  ghost function EmitOp(cl: Sizes, op: SizeOp, rest: nat): nat
    requires Sayable(cl, op)
  {
    Emit(cl, SymbolOf(op), Front(ExtraOf(op), ExtraWidth(op), rest))
  }

  ghost function EmitOps(cl: Sizes, ops: seq<SizeOp>, rest: nat): nat
    requires AllSayable(cl, ops)
  {
    if ops == [] then rest else EmitOp(cl, ops[0], EmitOps(cl, ops[1..], rest))
  }

  ghost function OpWidth(cl: Sizes, op: SizeOp): nat
    requires Sayable(cl, op)
  {
    cl[SymbolOf(op)] + ExtraWidth(op)
  }

  ghost function OpsWidth(cl: Sizes, ops: seq<SizeOp>): nat
    requires AllSayable(cl, ops)
  {
    if ops == [] then 0 else OpWidth(cl, ops[0]) + OpsWidth(cl, ops[1..])
  }

  /** An operation is read back. */
  lemma OpRead(cl: Sizes, count: nat, input: seq<nat>, c: nat, op: SizeOp, rest: nat, u: nat, end: nat)
    requires SizeCode(cl, count) && Sayable(cl, op) && StreamAt(input, c) == EmitOp(cl, op, rest)
    requires u == c + cl[SymbolOf(op)] && end == u + ExtraWidth(op)
    ensures ReadOp(cl, input, c) == Op(op, end) && StreamAt(input, end) == rest
  {
    var more := Front(ExtraOf(op), ExtraWidth(op), rest);
    SizeCodeFits(cl, count);
    EmitDecodes(cl, SymbolOf(op), more);
    ShrOn(LittleEndian(input), c, cl[SymbolOf(op)], u);
    ExtraFits(cl, op);
    TakeBits(input, u, ExtraOf(op), ExtraWidth(op), rest, end);
  }

  lemma ExtraFits(cl: Sizes, op: SizeOp)
    requires Sayable(cl, op)
    ensures 0 <= ExtraOf(op) < Pow2(ExtraWidth(op))
  {
    Pow2Values();
  }

  /** It adds the sizes that the list has next. */
  lemma ExtendedIs(op: SizeOp, zs: Sizes, at: nat, to: nat)
    requires to == at + Times(op) <= |zs| && Times(op) > 0 && forall i :: at <= i < to ==> Gives(op, zs, i)
    ensures Extended(op, zs[..at]) == Some(zs[..to])
  {
    match op
    case One(s) =>
      assert Gives(op, zs, at);
      assert zs[..at] + [s] == zs[..to];
    case Zeros(n) =>
      forall i | at <= i < to ensures zs[i] == 0 {
        assert Gives(op, zs, i);
      }
      assert zs[..at] + seq(n, _ => 0) == zs[..to];
    case Again(n) =>
      assert Gives(op, zs, at);
      AllAgain(op, zs, at, to);
      assert zs[..at][at - 1] == zs[at - 1];
      assert zs[..at] + seq(n, _ => zs[..at][|zs[..at]| - 1]) == zs[..to];
  }

  lemma {:induction false} AllAgain(op: SizeOp, zs: Sizes, at: nat, end: nat)
    requires 0 < at <= end <= |zs| && op.Again? && forall i :: at <= i < end ==> Gives(op, zs, i)
    ensures forall i :: at <= i < end ==> zs[i] == zs[at - 1]
    decreases end
  {
    if end > at {
      AllAgain(op, zs, at, end - 1);
      assert Gives(op, zs, end - 1);
    }
  }

  lemma OneStep(cl: Sizes, input: seq<nat>, c: nat, op: SizeOp, u: nat, before: Sizes, next: Sizes, total: nat)
    requires |cl| == ALL_FIELDS && Bounded(before) && Bounded(next) && |before| < total && |next| <= total
    requires ReadOp(cl, input, c) == Op(op, u) && Extended(op, before) == Some(next)
    ensures ReadSizes(cl, input, c, total, before) == ReadSizes(cl, input, u, total, next)
  {}

  /** The sizes are read back from the operations that give them. */
  lemma {:induction false} SizesRoundTrip(cl: Sizes, count: nat, input: seq<nat>, c: nat, ops: seq<SizeOp>, rest: nat,
      zs: Sizes, at: nat, total: nat, end: nat)
    requires SizeCode(cl, count) && AllSayable(cl, ops) && at <= |zs| && Lists(ops, zs, at) && Bounded(zs)
    requires total == |zs| && end == c + OpsWidth(cl, ops) && StreamAt(input, c) == EmitOps(cl, ops, rest)
    ensures ReadSizes(cl, input, c, total, zs[..at]) == SizesRead(zs, end) && StreamAt(input, end) == rest
    decreases |ops|
  {
    if ops == [] {
      assert zs[..at] == zs;
    } else {
      var op, more := ops[0], ops[1..];
      var u, to := c + OpWidth(cl, op), at + Times(op);
      OpRead(cl, count, input, c, op, EmitOps(cl, more, rest), c + cl[SymbolOf(op)], u);
      ExtendedIs(op, zs, at, to);
      SizesRoundTrip(cl, count, input, u, more, rest, zs, to, total, end);
      OneStep(cl, input, c, op, u, zs[..at], zs[..to], total);
    }
  }

  // ----- the header -----

  /** Codes that the header has room for, 257 to 288 literal and length sizes and 1 to 32 distance sizes, and a listing
      of their sizes. */
  ghost predicate Announced(lit: Sizes, dst: Sizes, l: Listing) {
    && LengthCode(lit) && DistanceCode(dst) && |lit| >= 257 && |dst| >= 1 && Kraft(lit) && Kraft(dst)
    && SizeCode(l.cl, l.count) && AllSayable(l.cl, l.ops) && Lists(l.ops, lit + dst, 0)
  }

  ghost function EmitCounts(hlit: nat, hdist: nat, hclen: nat, rest: nat): nat {
    Front(hlit, COUNT_BITS, Front(hdist, COUNT_BITS, Front(hclen, SIZES_BITS, rest)))
  }

  /** The fields and the sizes. */
  ghost function EmitListing(l: Listing, n: nat, rest: nat): nat
    requires SizeCode(l.cl, l.count) && AllSayable(l.cl, l.ops) && n <= l.count
  {
    EmitFields(l.cl, n, l.count, EmitOps(l.cl, l.ops, rest))
  }

  ghost function EmitHeader(lit: Sizes, dst: Sizes, l: Listing, rest: nat): nat
    requires Announced(lit, dst, l)
  {
    EmitCounts(|lit| - 257, |dst| - 1, l.count - 4, EmitListing(l, 0, rest))
  }

  ghost function HeaderWidth(l: Listing): nat
    requires AllSayable(l.cl, l.ops)
  {
    14 + 3 * l.count + OpsWidth(l.cl, l.ops)
  }

  lemma CountsRoundTrip(input: seq<nat>, c: nat, hlit: nat, hdist: nat, hclen: nat, rest: nat, end: nat)
    requires hlit < 32 && hdist < 32 && hclen < 16 && StreamAt(input, c) == EmitCounts(hlit, hdist, hclen, rest)
      && end == c + 14
    ensures LiteralCodes(input, c) == hlit + 257 && DistanceCodes(input, c) == hdist + 1
      && SizeCodes(input, c) == hclen + 4
    ensures StreamAt(input, end) == rest
  {
    Pow2Values();
    var third := Front(hclen, SIZES_BITS, rest);
    TakeBits(input, c, hlit, COUNT_BITS, Front(hdist, COUNT_BITS, third), c + 5);
    TakeBits(input, c + 5, hdist, COUNT_BITS, third, c + 10);
    TakeBits(input, c + 10, hclen, SIZES_BITS, rest, end);
  }

  lemma ListedIs(input: seq<nat>, c: nat, hclen: nat, total: nat, cl: Sizes, v: nat, none: Sizes, zs: Sizes, end: nat)
    requires hclen <= 19 && cl == CodeSizes(input, c, hclen) && Kraft(cl) && v == c + 3 * hclen && none == []
    requires ReadSizes(cl, input, v, total, none) == SizesRead(zs, end)
    ensures ListedSizes(input, c, hclen, total) == SizesRead(zs, end)
  {}

  lemma ListedRoundTrip(input: seq<nat>, c: nat, l: Listing, zs: Sizes, rest: nat, total: nat, none: nat, end: nat)
    requires SizeCode(l.cl, l.count) && AllSayable(l.cl, l.ops) && none == 0 && Lists(l.ops, zs, none) && Bounded(zs)
    requires total == |zs| && StreamAt(input, c) == EmitListing(l, none, rest)
    requires end == c + 3 * l.count + OpsWidth(l.cl, l.ops)
    ensures ListedSizes(input, c, l.count, total) == SizesRead(zs, end) && StreamAt(input, end) == rest
  {
    var v := c + 3 * l.count;
    CodeSizesRoundTrip(l.cl, input, c, l.count, none, EmitOps(l.cl, l.ops, rest), v);
    SizesRoundTrip(l.cl, l.count, input, v, l.ops, rest, zs, none, total, end);
    ListedIs(input, c, l.count, total, l.cl, v, zs[..none], zs, end);
  }

  lemma HeaderSizesAre(input: seq<nat>, c: nat, u: nat, total: nat, all: Sizes, end: nat)
    requires u == c + 14 && total == LiteralCodes(input, c) + DistanceCodes(input, c)
    requires ListedSizes(input, u, SizeCodes(input, c), total) == SizesRead(all, end)
    ensures HeaderSizes(input, c) == SizesRead(all, end)
  {}

  lemma HeaderIs(input: seq<nat>, c: nat, lit: Sizes, dst: Sizes, all: Sizes, end: nat)
    requires LengthCode(lit) && DistanceCode(dst) && Kraft(lit) && Kraft(dst)
    requires LiteralCodes(input, c) == |lit| && HeaderSizes(input, c) == SizesRead(all, end)
    requires |lit| <= |all| && all[..|lit|] == lit && all[|lit|..] == dst
    ensures ReadHeader(input, c) == Header(lit, dst, end)
  {}

  /** Any two codes are read back from their header, whatever code for sizes lists them and with whatever runs, up to
      exactly where it ends. */
  lemma HeaderRoundTrip(input: seq<nat>, c: nat, lit: Sizes, dst: Sizes, l: Listing, rest: nat, end: nat)
    requires Announced(lit, dst, l) && StreamAt(input, c) == EmitHeader(lit, dst, l, rest) && end == c + HeaderWidth(l)
    ensures ReadHeader(input, c) == Header(lit, dst, end) && StreamAt(input, end) == rest
  {
    var u, zs, total, none := c + 14, lit + dst, |lit| + |dst|, 0;
    CountsRoundTrip(input, c, |lit| - 257, |dst| - 1, l.count - 4, EmitListing(l, none, rest), u);
    ListedRoundTrip(input, u, l, zs, rest, total, none, end);
    HeaderSizesAre(input, c, u, total, zs, end);
    assert zs[..|lit|] == lit && zs[|lit|..] == dst;
    HeaderIs(input, c, lit, dst, zs, end);
  }

  // ----- a listing for any two codes -----

  const SIZE_WIDTH := 4

  /** Four bits for each size, and no runs. */
  function PlainCode(): (z: Sizes)
    ensures |z| == ALL_FIELDS && Bounded(z) && forall i :: 0 <= i < |z| ==> z[i] < 8
  {
    seq(ALL_FIELDS, i => if i < 16 then SIZE_WIDTH else 0)
  }

  lemma {:induction false} PlainCodeKraftTo(n: nat)
    requires n <= ALL_FIELDS
    ensures KraftTo(PlainCode(), n, MAX_SIZE) == 0x800 * if n < 16 then n else 16
  {
    assert Pow2(11) == 0x800;
    if n > 0 { PlainCodeKraftTo(n - 1); }
  }

  lemma PlainCodeFits()
    ensures SizeCode(PlainCode(), ALL_FIELDS)
  {
    assert Pow2(15) == 0x8000;
    PlainCodeKraftTo(ALL_FIELDS);
  }

  function Singly(zs: Sizes): (ops: seq<SizeOp>)
    ensures |ops| == |zs| && forall i :: 0 <= i < |ops| ==> ops[i] == One(zs[i])
  {
    seq(|zs|, i requires 0 <= i < |zs| => One(zs[i]))
  }

  lemma {:induction false} SinglyLists(zs: Sizes, at: nat, ops: seq<SizeOp>, cl: Sizes)
    requires Bounded(zs) && at <= |zs| && ops == Singly(zs)[at..] && cl == PlainCode()
    ensures Lists(ops, zs, at) && AllSayable(cl, ops)
    decreases |zs| - at
  {
    if at < |zs| {
      assert ops[1..] == Singly(zs)[at + 1..];
      SinglyLists(zs, at + 1, ops[1..], cl);
      assert Sayable(cl, ops[0]);
    }
  }

  /** Any two codes can be announced. */
  lemma PlainListing(lit: Sizes, dst: Sizes) returns (l: Listing)
    requires LengthCode(lit) && DistanceCode(dst) && |lit| >= 257 && |dst| >= 1 && Kraft(lit) && Kraft(dst)
    ensures Announced(lit, dst, l) && l == Listing(PlainCode(), ALL_FIELDS, Singly(lit + dst))
  {
    PlainCodeFits();
    var ops := Singly(lit + dst);
    assert ops == ops[0..];
    SinglyLists(lit + dst, 0, ops, PlainCode());
    l := Listing(PlainCode(), ALL_FIELDS, ops);
  }
}
