/** The inflate decoder: stored blocks and whole streams. */
module InflateStream {
  import opened Wrappers
  import opened Bits
  import opened CanonicalCode
  import opened Succession
  import opened ZHuffman
  import opened ZBuf
  import opened OutBuf
  import opened Deflate
  import opened DeflateStream
  import opened DynamicCodes
  import opened EndlessBlocks
  import opened Inflate

  // ----- stored blocks -----

  lemma RoundUp(c: nat, rest: nat, n: nat, fetched: nat)
    requires rest < 8 && c + rest + 8 * n == 8 * fetched
    ensures n <= fetched && (c + 7) / 8 == fetched - n && c + rest == 8 * (fetched - n)
  {}

  /** Discards the bits up to the next byte boundary. */
  method Align(a: BitBuf) returns (ghost m: nat)
    requires a.Valid()
    modifies a
    ensures a.Valid() && a.num_bits == 8 * m && a.consumed == 8 * ((old(a.consumed) + 7) / 8)
  {
    var rest := a.num_bits % 8;
    m := a.num_bits / 8;
    RoundUp(a.consumed, rest, m, a.fetched);
    if rest != 0 {
      var skipped := a.Receive(rest);
    }
  }

  /** The first n entries of the header are the bytes from byte k on. */
  ghost predicate Shows(header: array<nat>, n: nat, input: seq<nat>, k: nat)
    reads header
  {
    n <= header.Length && forall i :: 0 <= i < n ==> header[i] == ByteOf(input, k + i)
  }

  /** Moves the bytes that the bit buffer still holds into the header. */
  method DrainInto(header: array<nat>, a: BitBuf, ghost k: nat, ghost m: nat) returns (n: nat)
    requires a.Valid() && a.num_bits == 8 * m && a.consumed == 8 * k && header.Length == 4
    modifies a, header
    ensures a.Valid() && a.num_bits == 0 && n <= 4 && a.consumed == 8 * (k + n) && Shows(header, n, a.zbuffer, k)
  {
    n := 0;
    while a.num_bits > 0
      invariant a.Valid() && n <= m && a.num_bits == 8 * (m - n) && a.consumed == 8 * (k + n)
      invariant Shows(header, n, a.zbuffer, k)
      decreases a.num_bits
    {
      ByteAt(a.zbuffer, k + n);
      var b := a.Receive(BYTE);
      header[n] := b;
      n := n + 1;
    }
  }

  /** Reads the rest of the header from the input. */
  method FillInto(header: array<nat>, n0: nat, a: BitBuf, ghost k: nat)
    requires a.Valid() && a.num_bits == 0 && n0 <= 4 && a.consumed == 8 * (k + n0) && header.Length == 4
    requires Shows(header, n0, a.zbuffer, k)
    modifies a, header
    ensures a.Valid() && a.num_bits == 0 && a.consumed == 8 * (k + 4) && Shows(header, 4, a.zbuffer, k)
  {
    var n := n0;
    while n < 4
      invariant a.Valid() && a.num_bits == 0 && n <= 4 && a.consumed == 8 * (k + n)
      invariant Shows(header, n, a.zbuffer, k)
    {
      ByteAt(a.zbuffer, k + n);
      var b := a.GetByte();
      header[n] := b;
      n := n + 1;
    }
  }

  /** The reason that a stored block fails is one for every stored block at the position. */
  ghost predicate StoredExcused(outcome: Outcome, k: Limits, input: seq<nat>, c: nat, cur: nat) {
    forall bytes :: StoredEnd(input, c, bytes) >= 0 ==> Reason(outcome, k, cur + |bytes|)
  }

  /** A header that reaches past the input does not announce an empty block. */
  lemma HeaderInside(input: seq<nat>, k: nat)
    requires AreBytes(input) && ByteOf(input, k) + 256 * ByteOf(input, k + 1) == 0
    requires ByteOf(input, k + 2) + 256 * ByteOf(input, k + 3) == 0xffff
    ensures k + 4 <= |input|
  {}

  /** Reads the two length fields of a stored block, at the next byte boundary. */
  method ReadLengths(a: BitBuf, ghost k: nat) returns (len: nat, nlen: nat)
    requires a.Valid() && k == (a.consumed + 7) / 8
    modifies a
    ensures a.Valid() && a.num_bits == 0 && a.consumed == 8 * (k + 4)
    ensures len == ByteOf(a.zbuffer, k) + 256 * ByteOf(a.zbuffer, k + 1)
    ensures nlen == ByteOf(a.zbuffer, k + 2) + 256 * ByteOf(a.zbuffer, k + 3)
  {
    ghost var m := Align(a);
    var header := new nat[4];
    var n := DrainInto(header, a, k, m);
    FillInto(header, n, a, k);
    return header[1] * 256 + header[0], header[3] * 256 + header[2];
  }

  /** Copies a stored block to the output. */
  method ParseUncompressedBlock(a: BitBuf, out: OutBuf) returns (outcome: Outcome, ghost bytes: seq<nat>)
    requires a.Valid() && out.Valid()
    modifies a, out`cur, out`zout, out.zout
    ensures a.Valid() && out.Valid() && (out.zout == old(out.zout) || fresh(out.zout))
    ensures outcome.Done? ==> StoredEnd(a.zbuffer, old(a.consumed), bytes) == a.consumed
    ensures outcome.Done? ==> out.Out() == old(out.Out()) + bytes
    ensures !outcome.Done? ==> StoredExcused(outcome, out.limits, a.zbuffer, old(a.consumed), old(out.cur))
    ensures !outcome.Endless?
  {
    ghost var k := (a.consumed + 7) / 8;
    bytes := [];
    var len, nlen := ReadLengths(a, k);
    if nlen != 0xffff - len {
      return Corrupt, bytes;
    }
    if len == 0 { HeaderInside(a.zbuffer, k); }
    if a.pos + len > |a.zbuffer| {
      return Corrupt, bytes;
    }
    var ok := out.Reserve(len);
    if !ok {
      return NoSpace, bytes;
    }
    bytes := a.zbuffer[a.pos..a.pos + len];
    out.Append(a.zbuffer[a.pos..a.pos + len]);
    a.Skip(len);
    return Done, bytes;
  }

  // ----- blocks -----

  /** The two tables and the output do not overlap.  Under a lock. */
  ghost predicate Apart(lh: Huffman, dh: Huffman, zout: array<nat>) {
    forall key: nat {:trigger Unlock(key)} :: Unlock(key) ==>
      && lh.Allocated() && dh.Allocated() && lh.Arrays() !! dh.Arrays()
      && zout !in lh.Arrays() && zout !in dh.Arrays()
  }

  lemma ApartAgain(lh: Huffman, dh: Huffman, zout: array<nat>, zout': array<nat>)
    requires Apart(lh, dh, zout) && zout' !in lh.Arrays() && zout' !in dh.Arrays()
    ensures Apart(lh, dh, zout')
  {
    assert Unlock(0);
  }

  /** The block b stands at position c and ends there.  Under a lock. */
  ghost predicate Ends(input: seq<nat>, c: nat, b: Block, end: nat) {
    forall key: nat {:trigger Unlock(key)} :: Unlock(key) ==> BlockAt(input, c, b) == end
  }

  ghost predicate BlockExcused(outcome: Outcome, k: Limits, input: seq<nat>, c: nat, before: seq<nat>) {
    forall b, after ::
      BlockAt(input, c, b) >= 0 && Expands(BlockTokens(b), before, after) ==> Reason(outcome, k, |after|)
  }

  /** The header at position c starts a block of tokens that never ends.  Under a lock. */
  ghost predicate BlockTraps(input: seq<nat>, c: nat, size: nat, k: Limits) {
    forall key: nat {:trigger Unlock(key)} :: Unlock(key) ==>
      var h := TablesAt(input, c + 3, Low(StreamAt(input, c + 1), KIND_BITS));
      h.Header? && NeverEnds(h.lit, h.dst, input, h.to, size, k)
  }

  ghost predicate BlockAnswered(outcome: Outcome, k: Limits, input: seq<nat>, c: nat, before: seq<nat>) {
    BlockExcused(outcome, k, input, c, before) && (outcome.Endless? <==> BlockTraps(input, c, |before|, k))
  }

  method SetFixedTables(lh: Huffman, dh: Huffman, ghost zout: array<nat>) returns (ok: bool)
    requires Apart(lh, dh, zout)
    modifies lh.Arrays(), dh.Arrays()
    ensures ok && lh.Filled(FixedLengths()) && dh.Filled(FixedDistances())
  {
    assert lh.Allocated() && dh.Allocated() && lh.Arrays() !! dh.Arrays() by {
      assert Unlock(0);
    }
    FixedCodesFit();
    ok := BuildTables(lh, dh, FixedLengths(), FixedDistances());
  }

  /** Sets up the tables for a block of tokens. */
  method SetTables(a: BitBuf, lh: Huffman, dh: Huffman, kind: nat, ghost zout: array<nat>)
      returns (ok: bool, ghost lit: Sizes, ghost dst: Sizes)
    requires a.Valid() && Apart(lh, dh, zout) && 1 <= kind <= 2
    modifies a, lh.Arrays(), dh.Arrays()
    ensures a.Valid()
    ensures TablesAt(a.zbuffer, old(a.consumed), kind) == if ok then Header(lit, dst, a.consumed) else BadHeader
    ensures ok ==> LengthCode(lit) && DistanceCode(dst) && lh.Filled(lit) && dh.Filled(dst)
  {
    if kind == 1 {
      FixedCodesFit();
      lit, dst := FixedLengths(), FixedDistances();
      ok := SetFixedTables(lh, dh, zout);
    } else {
      assert lh.Allocated() && dh.Allocated() && lh.Arrays() !! dh.Arrays() by {
        assert Unlock(0);
      }
      ok, lit, dst := ComputeHuffmanCodes(a, lh, dh);
    }
  }

  lemma StoredReason(outcome: Outcome, k: Limits, bytes: seq<nat>, before: seq<nat>, after: seq<nat>, size: nat)
    requires Reason(outcome, k, size) && size == |before| + |bytes| && Expands(Literals(bytes), before, after)
    ensures Reason(outcome, k, |after|)
  {
    ExpandsSize(Literals(bytes), before, after);
    LiteralsExpand(bytes, before);
  }

  lemma AnswerStored(outcome: Outcome, k: Limits, input: seq<nat>, c: nat, before: seq<nat>, at: nat)
    requires Low(StreamAt(input, c + 1), KIND_BITS) == 0 && at == c + 3
    requires StoredExcused(outcome, k, input, at, |before|) && !outcome.Endless?
    ensures BlockAnswered(outcome, k, input, c, before)
  {
    forall b, after | BlockAt(input, c, b) >= 0 && Expands(BlockTokens(b), before, after)
      ensures Reason(outcome, k, |after|)
    {
      assert StoredEnd(input, at, b.bytes) >= 0;
      StoredReason(outcome, k, b.bytes, before, after, |before| + |b.bytes|);
    }
    assert Unlock(0);
  }

  lemma AnswerTables(k: Limits, input: seq<nat>, c: nat, before: seq<nat>)
    requires Low(StreamAt(input, c + 1), KIND_BITS) != 0
    requires TablesAt(input, c + 3, Low(StreamAt(input, c + 1), KIND_BITS)).BadHeader?
    ensures BlockAnswered(Corrupt, k, input, c, before)
  {
    assert Unlock(0);
  }

  lemma AnswerCoded(outcome: Outcome, k: Limits, input: seq<nat>, c: nat, before: seq<nat>, h: Header)
    requires Low(StreamAt(input, c + 1), KIND_BITS) != 0
      && h == TablesAt(input, c + 3, Low(StreamAt(input, c + 1), KIND_BITS)) && h.Header?
    requires Answered(outcome, k, h.lit, h.dst, input, h.to, before)
    ensures BlockAnswered(outcome, k, input, c, before)
  {
    assert Unlock(0);
  }

  /** A block of tokens with these codes starts at position c, and its tokens at position `at`;
      locked. */
  ghost predicate Starts(input: seq<nat>, c: nat, lit: Sizes, dst: Sizes, at: nat) {
    forall key: nat {:trigger Unlock(key)} :: Unlock(key) ==>
      var kind := Low(StreamAt(input, c + 1), KIND_BITS);
      kind != 0 && TablesAt(input, c + 3, kind) == Header(lit, dst, at)
  }

  lemma CodedStands(input: seq<nat>, c: nat, lit: Sizes, dst: Sizes, at: nat, ts: seq<Token>, end: nat)
    requires LengthCode(lit) && DistanceCode(dst) && Starts(input, c, lit, dst, at)
      && BlockEnd(lit, dst, input, at, ts) == end
    ensures Ends(input, c, Coded(lit, dst, ts), end)
  {}

  lemma AnswerTokens(outcome: Outcome, k: Limits, input: seq<nat>, c: nat, before: seq<nat>, lit: Sizes, dst: Sizes,
      at: nat)
    requires LengthCode(lit) && DistanceCode(dst) && Starts(input, c, lit, dst, at)
    requires Answered(outcome, k, lit, dst, input, at, before)
    ensures BlockAnswered(outcome, k, input, c, before)
  {
    assert Unlock(0);
    AnswerCoded(outcome, k, input, c, before, Header(lit, dst, at));
  }

  /** Decodes the tokens of a block with the tables that have been set up. */
  method ParseTokens(a: BitBuf, out: OutBuf, lh: Huffman, dh: Huffman, ghost lit: Sizes, ghost dst: Sizes, ghost c: nat)
    returns (outcome: Outcome, ghost b: Block)
    requires a.Valid() && out.Valid() && Apart(lh, dh, out.zout) && lh.Filled(lit) && dh.Filled(dst)
    requires LengthCode(lit) && DistanceCode(dst) && Starts(a.zbuffer, c, lit, dst, a.consumed)
    modifies a, out`cur, out`zout, out.zout
    ensures a.Valid() && out.Valid() && (out.zout == old(out.zout) || fresh(out.zout))
    ensures outcome.Done? ==> Ends(a.zbuffer, c, b, a.consumed) && Expands(BlockTokens(b), old(out.Out()), out.Out())
    ensures !outcome.Done? ==> BlockAnswered(outcome, out.limits, a.zbuffer, c, old(out.Out()))
  {
    assert out.zout !in lh.Arrays() + dh.Arrays() by {
      assert Unlock(0);
    }
    ghost var at, before, ts := a.consumed, out.Out(), [];
    outcome, ts := ParseHuffmanBlock(a, out, lh, dh, lit, dst);
    b := Coded(lit, dst, ts);
    if outcome.Done? {
      CodedStands(a.zbuffer, c, lit, dst, at, ts, a.consumed);
    } else {
      AnswerTokens(outcome, out.limits, a.zbuffer, c, before, lit, dst, at);
    }
  }

  /** Reads the codes of a block of tokens, and decodes it. */
  method ParseCodedBlock(a: BitBuf, out: OutBuf, lh: Huffman, dh: Huffman, kind: nat, ghost c: nat)
    returns (outcome: Outcome, ghost b: Block)
    requires a.Valid() && out.Valid() && Apart(lh, dh, out.zout) && 1 <= kind <= 2
    requires a.consumed == c + 3 && kind == Low(StreamAt(a.zbuffer, c + 1), KIND_BITS)
    modifies a, out`cur, out`zout, out.zout, lh.Arrays(), dh.Arrays()
    ensures a.Valid() && out.Valid() && (out.zout == old(out.zout) || fresh(out.zout))
    ensures outcome.Done? ==> Ends(a.zbuffer, c, b, a.consumed) && Expands(BlockTokens(b), old(out.Out()), out.Out())
    ensures !outcome.Done? ==> BlockAnswered(outcome, out.limits, a.zbuffer, c, old(out.Out()))
  {
    ghost var before := out.Out();
    ghost var lit, dst;
    var ok;
    ok, lit, dst := SetTables(a, lh, dh, kind, out.zout);
    assert out.Out() == before by {
      assert Unlock(0);
    }
    if ok {
      outcome, b := ParseTokens(a, out, lh, dh, lit, dst, c);
    } else {
      AnswerTables(out.limits, a.zbuffer, c, before);
      outcome, b := Corrupt, Stored([]);
    }
  }

  /** Decodes a block whose first header bit has been read. */
  method ParseBlock(a: BitBuf, out: OutBuf, lh: Huffman, dh: Huffman, ghost c: nat)
    returns (outcome: Outcome, ghost b: Block)
    requires a.Valid() && out.Valid() && Apart(lh, dh, out.zout) && a.consumed == c + 1
    modifies a, out`cur, out`zout, out.zout, lh.Arrays(), dh.Arrays()
    ensures a.Valid() && out.Valid() && (out.zout == old(out.zout) || fresh(out.zout))
    ensures outcome.Done? ==> Ends(a.zbuffer, c, b, a.consumed) && Expands(BlockTokens(b), old(out.Out()), out.Out())
    ensures !outcome.Done? ==> BlockAnswered(outcome, out.limits, a.zbuffer, c, old(out.Out()))
  {
    ghost var before := out.Out();
    b := Stored([]);
    var kind := a.Receive(KIND_BITS);
    if kind == 0 {
      ghost var bytes;
      outcome, bytes := ParseUncompressedBlock(a, out);
      b := Stored(bytes);
      LiteralsExpand(bytes, before);
      if !outcome.Done? {
        AnswerStored(outcome, out.limits, a.zbuffer, c, before, c + 3);
      }
    } else if kind == 3 {
      AnswerTables(out.limits, a.zbuffer, c, before);
      outcome := Corrupt;
    } else {
      outcome, b := ParseCodedBlock(a, out, lh, dh, kind, c);
    }
  }

  // ----- streams -----

  /** These blocks stand at position c, none of them the last, and end at position u; locked. */
  ghost predicate EndsAt(input: seq<nat>, c: nat, bs: seq<Block>, u: int) {
    forall key: nat {:trigger Unlock(key)} :: Unlock(key) ==> BlocksEnd(input, c, bs) == u
  }

  /** The blocks expand to `out`; locked. */
  ghost predicate Says(bs: seq<Block>, out: seq<nat>) {
    forall key: nat {:trigger Unlock(key)} :: Unlock(key) ==> Expands(AllTokens(bs), [], out)
  }

  /** A failure is one for every stream that stands at position c. */
  ghost predicate StreamExcused(outcome: Outcome, k: Limits, input: seq<nat>, c: nat) {
    forall bs, after :: Stands(input, c, bs) && Expands(AllTokens(bs), [], after) ==> Reason(outcome, k, |after|)
  }

  /** After these blocks comes one that never ends. */
  ghost predicate TrapsAfter(input: seq<nat>, c: nat, k: Limits, bs: seq<Block>, mid: seq<nat>) {
    Says(bs, mid) && exists u: nat :: EndsAt(input, c, bs, u) && BlockTraps(input, u, |mid|, k)
  }

  ghost predicate StreamTraps(input: seq<nat>, c: nat, k: Limits) {
    exists bs, mid :: TrapsAfter(input, c, k, bs, mid)
  }

  ghost predicate StreamAnswered(outcome: Outcome, k: Limits, input: seq<nat>, c: nat) {
    StreamExcused(outcome, k, input, c) && (outcome.Endless? <==> StreamTraps(input, c, k))
  }

  lemma {:induction false} TokensOfPrefix(bs: seq<Block>, all: seq<Block>)
    requires bs <= all
    ensures AllTokens(bs) <= AllTokens(all)
    decreases |all|
  {
    if |bs| < |all| {
      TokensOfPrefix(bs, all[..|all| - 1]);
    } else {
      assert bs == all;
    }
  }

  /** A later block is written after what has been written so far. */
  lemma LaterFits(bs: seq<Block>, all: seq<Block>, mid: seq<nat>, after: seq<nat>) returns (m: seq<nat>)
    requires bs < all && Says(bs, mid) && Says(all, after)
    ensures Expands(BlockTokens(all[|bs|]), mid, m) && |m| <= |after|
  {
    assert Unlock(0);
    TokensOfNext(bs, all[|bs|], all);
    m := RestFits(AllTokens(bs), BlockTokens(all[|bs|]), AllTokens(all), mid, after);
  }

  lemma ReasonGrows(outcome: Outcome, k: Limits, size: nat, more: nat)
    requires Reason(outcome, k, size) && size <= more
    ensures Reason(outcome, k, more)
  {
    if Room(k, more) { RoomForLess(k, size, more); }
  }

  lemma ExcuseStream(outcome: Outcome, k: Limits, input: seq<nat>, c: nat, bs: seq<Block>, mid: seq<nat>, u: nat)
    requires EndsAt(input, c, bs, u) && Says(bs, mid) && BlockExcused(outcome, k, input, u, mid)
    ensures StreamExcused(outcome, k, input, c)
  {
    forall all, after | Stands(input, c, all) && Expands(AllTokens(all), [], after)
      ensures Reason(outcome, k, |after|)
    {
      assert BlocksEnd(input, c, bs) == u by {
        assert Unlock(0);
      }
      BlocksArePrefix(input, c, bs, all, u);
      var m := LaterFits(bs, all, mid, after);
      ReasonGrows(outcome, k, |m|, |after|);
    }
  }

  /** A block that stands is not one that never ends. */
  lemma StandingBlock(input: seq<nat>, c: nat, b: Block, size: nat, k: Limits)
    requires BlockAt(input, c, b) >= 0
    ensures !BlockTraps(input, c, size, k)
  {
    var h := TablesAt(input, c + 3, Low(StreamAt(input, c + 1), KIND_BITS));
    assert Unlock(0);
    if b.Coded? { StandingEnds(h.lit, h.dst, input, h.to, size, k, b.tokens); }
  }

  /** Of two lists of blocks that stand at a position, the shorter one begins the other. */
  lemma BlocksAgree(input: seq<nat>, c: nat, bs: seq<Block>, cs: seq<Block>, u: nat, v: nat)
    requires |bs| <= |cs| && EndsAt(input, c, bs, u) && EndsAt(input, c, cs, v)
    ensures bs <= cs && (|bs| < |cs| ==> !Final(input, u) && BlockAt(input, u, cs[|bs|]) >= 0) && (bs == cs ==> u == v)
  {
    assert Unlock(0);
    BlockReaderDeterministic(input);
    ShorterIsPrefix(BlockReader(input), StreamStops(input), c, bs, cs, u);
  }

  lemma TrapHasRoom(input: seq<nat>, c: nat, size: nat, k: Limits)
    requires BlockTraps(input, c, size, k)
    ensures Room(k, size)
  {
    var h := TablesAt(input, c + 3, Low(StreamAt(input, c + 1), KIND_BITS));
    assert Unlock(0);
    HasRoom(h.lit, h.dst, input, h.to, size, k);
  }

  lemma NoTrapBefore(input: seq<nat>, c: nat, k: Limits, bs: seq<Block>, u: nat, cs: seq<Block>, far: seq<nat>)
    requires EndsAt(input, c, bs, u) && |cs| < |bs|
    ensures !TrapsAfter(input, c, k, cs, far)
  {
    forall v: nat | EndsAt(input, c, cs, v) ensures !BlockTraps(input, v, |far|, k) {
      BlocksAgree(input, c, cs, bs, v, u);
      StandingBlock(input, v, bs[|cs|], |far|, k);
    }
  }

  lemma NoTrapAfter(outcome: Outcome, k: Limits, input: seq<nat>, c: nat, bs: seq<Block>, mid: seq<nat>, u: nat,
      cs: seq<Block>, far: seq<nat>)
    requires EndsAt(input, c, bs, u) && Says(bs, mid) && BlockExcused(outcome, k, input, u, mid)
    requires !outcome.Done? && |cs| > |bs|
    ensures !TrapsAfter(input, c, k, cs, far)
  {
    if Says(cs, far) {
      forall v: nat | EndsAt(input, c, cs, v) ensures !BlockTraps(input, v, |far|, k) {
        BlocksAgree(input, c, bs, cs, u, v);
        var m := LaterFits(bs, cs, mid, far);
        assert Reason(outcome, k, |m|);
        if BlockTraps(input, v, |far|, k) {
          TrapHasRoom(input, v, |far|, k);
          RoomForLess(k, |m|, |far|);
        }
      }
    }
  }

  lemma SaidOnce(bs: seq<Block>, mid: seq<nat>, far: seq<nat>)
    requires Says(bs, mid) && Says(bs, far)
    ensures |mid| == |far|
  {
    assert Unlock(0);
    ExpandsSize(AllTokens(bs), [], mid);
    ExpandsSize(AllTokens(bs), [], far);
  }

  /** When the block after bs cannot be decoded, no other one is a trap. */
  lemma OnlyTrap(outcome: Outcome, k: Limits, input: seq<nat>, c: nat, bs: seq<Block>, mid: seq<nat>, u: nat,
      cs: seq<Block>, far: seq<nat>)
    requires EndsAt(input, c, bs, u) && Says(bs, mid) && BlockExcused(outcome, k, input, u, mid)
    requires !outcome.Done? && TrapsAfter(input, c, k, cs, far)
    ensures BlockTraps(input, u, |mid|, k)
  {
    if |cs| < |bs| { NoTrapBefore(input, c, k, bs, u, cs, far); }
    if |cs| > |bs| { NoTrapAfter(outcome, k, input, c, bs, mid, u, cs, far); }
    var v: nat :| EndsAt(input, c, cs, v) && BlockTraps(input, v, |far|, k);
    BlocksAgree(input, c, cs, bs, v, u);
    assert cs == bs;
    SaidOnce(bs, mid, far);
  }

  lemma AnswerStream(outcome: Outcome, k: Limits, input: seq<nat>, c: nat, bs: seq<Block>, mid: seq<nat>, u: nat)
    requires EndsAt(input, c, bs, u) && Says(bs, mid)
    requires BlockAnswered(outcome, k, input, u, mid) && !outcome.Done?
    ensures StreamAnswered(outcome, k, input, c)
  {
    ExcuseStream(outcome, k, input, c, bs, mid, u);
    if outcome.Endless? { assert TrapsAfter(input, c, k, bs, mid); }
    if StreamTraps(input, c, k) {
      var cs, far :| TrapsAfter(input, c, k, cs, far);
      OnlyTrap(outcome, k, input, c, bs, mid, u, cs, far);
    }
  }

  lemma NoTrapInside(input: seq<nat>, c: nat, k: Limits, most: seq<Block>, b: Block, u: nat, cs: seq<Block>,
      far: seq<nat>)
    requires EndsAt(input, c, most, u) && Final(input, u) && BlockAt(input, u, b) >= 0
    ensures !TrapsAfter(input, c, k, cs, far)
  {
    if |cs| < |most| {
      NoTrapBefore(input, c, k, most, u, cs, far);
    } else {
      forall v: nat | EndsAt(input, c, cs, v) ensures !BlockTraps(input, v, |far|, k) {
        BlocksAgree(input, c, most, cs, u, v);
        assert cs == most;
        StandingBlock(input, u, b, |far|, k);
      }
    }
  }

  /** A stream that stands has no trap. */
  lemma StandingStream(input: seq<nat>, c: nat, bs: seq<Block>, k: Limits)
    requires Stands(input, c, bs)
    ensures !StreamTraps(input, c, k)
  {
    var most, last := bs[..|bs| - 1], bs[|bs| - 1];
    var u := BlocksEnd(input, c, most);
    assert EndsStream(input, c, most, last, u) by {
      assert Unlock(0);
    }
    forall cs, far ensures !TrapsAfter(input, c, k, cs, far) {
      NoTrapInside(input, c, k, most, last, u, cs, far);
    }
  }

  lemma TokensOfNext(bs: seq<Block>, b: Block, all: seq<Block>)
    requires bs < all && all[|bs|] == b
    ensures AllTokens(bs) + BlockTokens(b) <= AllTokens(all) && |BlockTokens(b)| <= |AllTokens(all)|
  {
    assert (bs + [b])[..|bs|] == bs;
    TokensOfPrefix(bs + [b], all);
  }

  /** The blocks read so far stand at position c, all of the stream's or those before position u,
      and expand to `out`. */
  ghost predicate ReadSoFar(input: seq<nat>, c: nat, bs: seq<Block>, last: bool, u: nat, out: seq<nat>) {
    (if last then Stands(input, c, bs) else EndsAt(input, c, bs, u)) && Says(bs, out)
  }

  lemma NothingRead(input: seq<nat>, c: nat)
    ensures ReadSoFar(input, c, [], false, c, [])
  {}

  lemma AllRead(input: seq<nat>, c: nat, bs: seq<Block>, u: nat, out: seq<nat>)
    requires ReadSoFar(input, c, bs, true, u, out)
    ensures Stands(input, c, bs) && Expands(AllTokens(bs), [], out)
  {
    assert Unlock(0);
  }

  /** Adding a block to the ones before it. */
  lemma NextBlock(input: seq<nat>, c: nat, bs: seq<Block>, b: Block, u: nat, mid: seq<nat>, after: seq<nat>,
      last: bool, end: nat)
    requires AreBytes(input) && ReadSoFar(input, c, bs, false, u, mid) && Ends(input, u, b, end)
      && last == Final(input, u)
    requires Expands(BlockTokens(b), mid, after)
    ensures u < 8 * |input| && u < end && ReadSoFar(input, c, bs + [b], last, end, after)
  {
    assert Unlock(0);
    BlockInside(input, u, b);
    assert (bs + [b])[..|bs|] == bs;
    ExpandsJoin(AllTokens(bs), BlockTokens(b), [], mid, after);
    if !last { BlocksNext(input, c, bs, b, u); }
  }

  /** Decodes one more block; `last` tells whether it is the final one. */
  method ParseNextBlock(a: BitBuf, out: OutBuf, lh: Huffman, dh: Huffman, ghost c: nat, ghost bs: seq<Block>)
    returns (outcome: Outcome, last: bool, ghost bs': seq<Block>)
    requires a.Valid() && out.Valid() && Apart(lh, dh, out.zout)
    requires ReadSoFar(a.zbuffer, c, bs, false, a.consumed, out.Out())
    modifies a, out`cur, out`zout, out.zout, lh.Arrays(), dh.Arrays()
    ensures a.Valid() && out.Valid() && (out.zout == old(out.zout) || fresh(out.zout))
    ensures outcome.Done? ==> ReadSoFar(a.zbuffer, c, bs', last, a.consumed, out.Out())
    ensures outcome.Done? ==> old(a.consumed) < a.consumed && old(a.consumed) < 8 * |a.zbuffer|
    ensures Apart(lh, dh, out.zout)
    ensures !outcome.Done? ==> StreamAnswered(outcome, out.limits, a.zbuffer, c)
  {
    ghost var u, mid, zout := a.consumed, out.Out(), out.zout;
    var final := a.Receive(FINAL_BITS);
    last, bs' := final == 1, bs;
    ghost var b;
    outcome, b := ParseBlock(a, out, lh, dh, u);
    if out.zout != zout { ApartAgain(lh, dh, zout, out.zout); }
    if outcome.Done? {
      NextBlock(a.zbuffer, c, bs, b, u, mid, out.Out(), last, a.consumed);
      bs' := bs + [b];
    } else {
      AnswerStream(outcome, out.limits, a.zbuffer, c, bs, mid, u);
    }
  }

  /** Decodes blocks up to the final one. */
  method ParseBlocks(a: BitBuf, out: OutBuf, lh: Huffman, dh: Huffman, ghost c: nat)
    returns (outcome: Outcome, ghost bs: seq<Block>)
    requires a.Valid() && out.Valid() && Apart(lh, dh, out.zout) && out.Out() == []
    requires c == a.consumed
    modifies a, out`cur, out`zout, out.zout, lh.Arrays(), dh.Arrays()
    ensures out.Valid()
    ensures outcome.Done? ==> Stands(a.zbuffer, c, bs) && Expands(AllTokens(bs), [], out.Out())
    ensures !outcome.Done? ==> StreamAnswered(outcome, out.limits, a.zbuffer, c)
  {
    bs := [];
    var last := false;
    NothingRead(a.zbuffer, c);
    while !last
      invariant a.Valid() && out.Valid() && (out.zout == old(out.zout) || fresh(out.zout))
      invariant Apart(lh, dh, out.zout) && ReadSoFar(a.zbuffer, c, bs, last, a.consumed, out.Out())
      decreases !last, 8 * |a.zbuffer| - a.consumed
    {
      outcome, last, bs := ParseNextBlock(a, out, lh, dh, c, bs);
      if !outcome.Done? {
        return;
      }
    }
    AllRead(a.zbuffer, c, bs, a.consumed, out.Out());
    outcome := Done;
  }

  // ----- the zlib wrapper (RFC 1950) -----

  /** Method 8 and no preset dictionary, in two bytes that make a multiple of 31. */
  ghost predicate HeaderOk(input: seq<nat>) {
    var cmf, flg := ByteOf(input, 0), ByteOf(input, 1);
    (cmf * 256 + flg) % 31 == 0 && flg / 32 % 2 == 0 && cmf % 16 == 8
  }

  method ParseZlibHeader(a: BitBuf) returns (ok: bool)
    requires a.Valid() && a.num_bits == 0 && a.consumed == 0
    modifies a
    ensures a.Valid() && a.num_bits == 0 && a.consumed == 16 && ok == HeaderOk(a.zbuffer)
  {
    ByteAt(a.zbuffer, 0);
    ByteAt(a.zbuffer, 1);
    var cmf := a.GetByte();
    var flg := a.GetByte();
    return (cmf * 256 + flg) % 31 == 0 && flg / 32 % 2 == 0 && cmf % 16 == 8;
  }

  /** The stream that the input holds, after the two bytes of its header if it has one. */
  ghost predicate Holds(input: seq<nat>, header: bool, bs: seq<Block>) {
    (header ==> HeaderOk(input)) && Stands(input, if header then 16 else 0, bs)
  }

  /** The stream that the input is meant to hold never ends. */
  ghost predicate HoldsTrap(input: seq<nat>, header: bool, k: Limits) {
    (header ==> HeaderOk(input)) && StreamTraps(input, if header then 16 else 0, k)
  }

  /** The failure is one for every stream that the input holds. */
  ghost predicate ZlibExcused(outcome: Outcome, k: Limits, input: seq<nat>, header: bool) {
    forall bs, after :: Holds(input, header, bs) && Expands(AllTokens(bs), [], after) ==> Reason(outcome, k, |after|)
  }

  lemma AnswerZlib(outcome: Outcome, k: Limits, input: seq<nat>, header: bool, c: nat)
    requires (header ==> HeaderOk(input)) && c == (if header then 16 else 0) && StreamAnswered(outcome, k, input, c)
    ensures ZlibExcused(outcome, k, input, header) && (outcome.Endless? <==> HoldsTrap(input, header, k))
  {}

  lemma HoldsNoTrap(input: seq<nat>, header: bool, bs: seq<Block>, k: Limits)
    requires Holds(input, header, bs)
    ensures !HoldsTrap(input, header, k)
  {
    StandingStream(input, if header then 16 else 0, bs, k);
  }

  /** Decodes a whole stream.  Every stream is decoded that there is room for, and the decoder fails
      to come back exactly where it is trapped. */
  method ParseZlib(a: BitBuf, out: OutBuf, header: bool) returns (outcome: Outcome, ghost bs: seq<Block>)
    requires a.Valid() && a.num_bits == 0 && a.consumed == 0 && out.Valid() && out.Out() == []
    modifies a, out`cur, out`zout, out.zout
    ensures out.Valid()
    ensures if outcome.Done? then Holds(a.zbuffer, header, bs) && Expands(AllTokens(bs), [], out.Out())
      else ZlibExcused(outcome, out.limits, a.zbuffer, header)
    ensures outcome.Endless? <==> HoldsTrap(a.zbuffer, header, out.limits)
  {
    bs := [];
    if header {
      var ok := ParseZlibHeader(a);
      if !ok {
        return Corrupt, bs;
      }
    }
    var lh := new Huffman();
    var dh := new Huffman();
    ghost var c := a.consumed;
    outcome, bs := ParseBlocks(a, out, lh, dh, c);
    if outcome.Done? {
      HoldsNoTrap(a.zbuffer, header, bs, out.limits);
    } else {
      AnswerZlib(outcome, out.limits, a.zbuffer, header, c);
    }
  }

  /** Decodes the input into a buffer that starts with olen bytes. */
  method DoZlib(input: seq<nat>, olen: nat, exp: bool, maxAlloc: nat, header: bool)
    returns (outcome: Outcome, output: seq<nat>, ghost bs: seq<Block>)
    requires AreBytes(input) && (olen > 0 || !exp)
    ensures outcome.Done? ==>
      Holds(input, header, bs) && Expands(AllTokens(bs), [], output) && Room(Limits(olen, exp, maxAlloc), |output|)
    ensures !outcome.Done? ==> ZlibExcused(outcome, Limits(olen, exp, maxAlloc), input, header)
    ensures outcome.Endless? <==> HoldsTrap(input, header, Limits(olen, exp, maxAlloc))
  {
    var a := new BitBuf(input);
    var out := new OutBuf(olen, exp, maxAlloc);
    outcome, bs := ParseZlib(a, out, header);
    RoomSoFar(out);
    output := out.zout[..out.cur];
  }
}
