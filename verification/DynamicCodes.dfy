/** Reading the code tables that a dynamic block starts with. */
module DynamicCodes {
  import opened Wrappers
  import opened Bits
  import opened CanonicalCode
  import opened ZHuffman
  import opened ZBuf
  import opened Deflate

  const MAX_LENCODES := 286 + 32 + 137

  /** The next operation on the list of sizes. */
  method NextOp(a: BitBuf, h: Huffman, ghost cl: Sizes) returns (r: Option<SizeOp>)
    requires a.Valid() && h.Filled(cl) && |cl| == 19
    modifies a
    ensures a.Valid()
    ensures match ReadOp(cl, a.zbuffer, old(a.consumed))
      case BadOp => r.None?
      case Op(op, to) => r == Some(op) && a.consumed == to
  {
    var c := a.HuffmanDecode(h, cl);
    if c < 0 || c >= 19 {
      return None;
    }
    if c < 16 {
      return Some(One(c));
    }
    if c == 16 {
      var n := a.Receive(AGAIN_BITS);
      return Some(Again(n + 3));
    }
    if c == 17 {
      var n := a.Receive(ZEROS_BITS);
      return Some(Zeros(n + 3));
    }
    var n := a.Receive(MANY_ZEROS_BITS);
    return Some(Zeros(n + 11));
  }

  /** Appends the sizes that an operation stands for; fails if it has nothing to repeat or goes
      past the total. */
  method Extend(lencodes: array<nat>, n: nat, op: SizeOp, total: nat) returns (ok: bool, n': nat)
    requires n < total <= lencodes.Length && (!op.One? ==> op.times > 0)
    modifies lencodes
    ensures ok <==> Extended(op, old(lencodes[..n])).Some? && |Extended(op, old(lencodes[..n])).value| <= total
    ensures ok ==> n < n' <= total && lencodes[..n'] == Extended(op, old(lencodes[..n])).value
  {
    match op {
      case One(s) =>
        lencodes[n] := s;
        return true, n + 1;
      case Again(times) =>
        if n == 0 {
          return false, n;
        }
        ok, n' := Fill(lencodes, n, lencodes[n - 1], times, total);
      case Zeros(times) =>
        ok, n' := Fill(lencodes, n, 0, times, total);
    }
  }

  method Fill(lencodes: array<nat>, n: nat, fill: nat, times: nat, total: nat) returns (ok: bool, n': nat)
    requires n < total <= lencodes.Length
    modifies lencodes
    ensures ok <==> n + times <= total
    ensures ok ==> n' == n + times && lencodes[..n'] == old(lencodes[..n]) + seq(times, _ => fill)
  {
    if total - n < times {
      return false, n;
    }
    forall i | n <= i < n + times {
      lencodes[i] := fill;
    }
    return true, n + times;
  }

  /** Reads the sizes of both codes. */
  method ReadLencodes(a: BitBuf, h: Huffman, ghost cl: Sizes, total: nat) returns (ok: bool, lencodes: array<nat>)
    requires a.Valid() && h.Filled(cl) && |cl| == 19 && total <= MAX_LENCODES
    modifies a
    ensures a.Valid() && fresh(lencodes) && lencodes.Length == MAX_LENCODES
    ensures var r := ReadSizes(cl, a.zbuffer, old(a.consumed), total, []);
      ok == r.SizesRead? && (ok ==> lencodes[..total] == r.sizes && a.consumed == r.to)
  {
    ghost var all := ReadSizes(cl, a.zbuffer, a.consumed, total, []);
    lencodes := new nat[MAX_LENCODES];
    var n := 0;
    assert lencodes[..0] == [];
    while n < total
      invariant a.Valid() && n <= total && Bounded(lencodes[..n])
      invariant ReadSizes(cl, a.zbuffer, a.consumed, total, lencodes[..n]) == all
      decreases total - n
    {
      ghost var c := a.consumed;
      var r := NextOp(a, h, cl);
      if r.None? {
        return false, lencodes;
      }
      ghost var sizes := lencodes[..n];
      assert ReadOp(cl, a.zbuffer, c) == Op(r.value, a.consumed);
      ok, n := Extend(lencodes, n, r.value, total);
      if !ok {
        return false, lencodes;
      }
    }
    return true, lencodes;
  }

  /** Reads the sizes of the code for sizes. */
  method ReadCodeSizes(a: BitBuf, hclen: nat) returns (cl: seq<nat>)
    requires a.Valid() && hclen <= 19
    modifies a
    ensures a.Valid() && a.consumed == old(a.consumed) + 3 * hclen
    ensures cl == CodeSizes(a.zbuffer, old(a.consumed), hclen)
  {
    ghost var c := a.consumed;
    cl := seq(19, _ => 0);
    for i := 0 to hclen
      invariant a.Valid() && a.consumed == c + 3 * i && cl == CodeSizes(a.zbuffer, c, i)
    {
      var s := a.Receive(SIZE_BITS);
      DezigzagInRange(i);
      cl := cl[LENGTH_DEZIGZAG[i] := s];
    }
  }

  /** Reads the sizes of both codes with the code whose sizes are cl. */
  method ReadWith(a: BitBuf, cl: seq<nat>, total: nat) returns (ok: bool, sizes: seq<nat>)
    requires a.Valid() && |cl| == 19 && Bounded(cl) && total <= MAX_LENCODES
    modifies a
    ensures a.Valid()
    ensures (if Kraft(cl) then ReadSizes(cl, a.zbuffer, old(a.consumed), total, []) else BadSizes) ==
      if ok then SizesRead(sizes, a.consumed) else BadSizes
  {
    sizes := [];
    var h := new Huffman();
    ok := BuildHuffman(h, cl);
    if ok {
      var lencodes;
      ok, lencodes := ReadLencodes(a, h, cl, total);
      sizes := lencodes[..total];
    }
  }

  /** Reads the sizes of the code for sizes, and with it the sizes of both codes. */
  method ReadListedSizes(a: BitBuf, hclen: nat, total: nat) returns (ok: bool, sizes: seq<nat>)
    requires a.Valid() && hclen <= 19 && total <= MAX_LENCODES
    modifies a
    ensures a.Valid()
    ensures ListedSizes(a.zbuffer, old(a.consumed), hclen, total) == if ok then SizesRead(sizes, a.consumed)
      else BadSizes
  {
    var cl := ReadCodeSizes(a, hclen);
    ok, sizes := ReadWith(a, cl, total);
  }

  method ReadCounts(a: BitBuf) returns (hlit: nat, hdist: nat, hclen: nat)
    requires a.Valid()
    modifies a
    ensures a.Valid() && a.consumed == old(a.consumed) + 14
    ensures hlit == LiteralCodes(a.zbuffer, old(a.consumed)) && hdist == DistanceCodes(a.zbuffer, old(a.consumed))
    ensures hclen == SizeCodes(a.zbuffer, old(a.consumed))
  {
    hlit := a.Receive(COUNT_BITS);
    hdist := a.Receive(COUNT_BITS);
    hclen := a.Receive(SIZES_BITS);
    hlit, hdist, hclen := hlit + 257, hdist + 1, hclen + 4;
  }

  /** Reads the sizes that the header of a dynamic block announces. */
  method ReadHeaderSizes(a: BitBuf) returns (ok: bool, hlit: nat, sizes: seq<nat>)
    requires a.Valid()
    modifies a
    ensures a.Valid() && hlit == LiteralCodes(a.zbuffer, old(a.consumed))
    ensures HeaderSizes(a.zbuffer, old(a.consumed)) == if ok then SizesRead(sizes, a.consumed) else BadSizes
  {
    var hdist, hclen;
    hlit, hdist, hclen := ReadCounts(a);
    ok, sizes := ReadListedSizes(a, hclen, hlit + hdist);
  }

  /** Builds both tables; fails if either list of sizes violates the Kraft inequality. */
  method BuildTables(lh: Huffman, dh: Huffman, lit: seq<nat>, dst: seq<nat>) returns (ok: bool)
    requires lh.Allocated() && dh.Allocated() && lh.Arrays() !! dh.Arrays() && LengthCode(lit) && DistanceCode(dst)
    modifies lh.Arrays(), dh.Arrays()
    ensures ok <==> Kraft(lit) && Kraft(dst)
    ensures ok ==> lh.Filled(lit) && dh.Filled(dst)
  {
    ok := BuildHuffman(lh, lit);
    if ok {
      ok := BuildHuffman(dh, dst);
    }
  }

  /** Reads the header of a dynamic block and builds its two tables. */
  method ComputeHuffmanCodes(a: BitBuf, lh: Huffman, dh: Huffman) returns (ok: bool, ghost lit: Sizes, ghost dst: Sizes)
    requires a.Valid() && lh.Allocated() && dh.Allocated() && lh.Arrays() !! dh.Arrays()
    modifies a, lh.Arrays(), dh.Arrays()
    ensures a.Valid()
    ensures ReadHeader(a.zbuffer, old(a.consumed)) == if ok then Header(lit, dst, a.consumed) else BadHeader
    ensures ok ==> LengthCode(lit) && DistanceCode(dst) && lh.Filled(lit) && dh.Filled(dst)
  {
    lit, dst := [], [];
    var hlit, sizes;
    ok, hlit, sizes := ReadHeaderSizes(a);
    if ok {
      lit, dst := sizes[..hlit], sizes[hlit..];
      ok := BuildTables(lh, dh, sizes[..hlit], sizes[hlit..]);
    }
  }
}
