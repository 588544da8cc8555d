/** The inflate decoder: Huffman blocks, stored blocks and whole streams. */
module Inflate {
  import opened Bits
  import opened CanonicalCode
  import opened Succession
  import opened ZHuffman
  import opened ZBuf
  import opened OutBuf
  import opened Deflate
  import opened EndlessBlocks

  /** Endless stands for not coming back at all. */
  datatype Outcome = Done | Corrupt | NoSpace | Endless

  datatype Symbol = Invalid | EndOfBlock | Of(token: Token)

  /** The decoded symbol and the new position are what the stream says. */
  ghost predicate Answers(symbol: Symbol, step: Step, to: nat) {
    match step
    case Bad => symbol == Invalid
    case Stop(c) => symbol == EndOfBlock && to == c
    case Next(t, c) => symbol == Of(t) && to == c
  }

  /** The distance that follows a length. */
  method NextDistance(a: BitBuf, h: Huffman, ghost z: Sizes, len: nat) returns (symbol: Symbol)
    requires a.Valid() && h.Filled(z) && DistanceCode(z)
    modifies a
    ensures a.Valid() && Answers(symbol, ReadDistance(z, old(a.Stream()), len, old(a.consumed)), a.consumed)
  {
    var d := a.HuffmanDecode(h, z);
    if d < 0 {
      return Invalid;
    }
    var dist, extra := LookupDistance(d);
    var k := a.Receive(extra);
    return Of(Copy(len, dist + k));
  }

  /** The length that symbol z means, and its distance. */
  method NextLength(a: BitBuf, h: Huffman, ghost dst: Sizes, z: nat) returns (symbol: Symbol)
    requires a.Valid() && h.Filled(dst) && DistanceCode(dst) && 257 <= z < 288
    modifies a
    ensures a.Valid() && Answers(symbol, ReadLength(dst, old(a.Stream()), z, old(a.consumed)), a.consumed)
  {
    var len, extra := LookupLength(z - 257);
    var k := a.Receive(extra);
    symbol := NextDistance(a, h, dst, len + k);
  }

  /** The next literal, end of block, or length and distance. */
  method NextSymbol(a: BitBuf, lh: Huffman, dh: Huffman, ghost lit: Sizes, ghost dst: Sizes) returns (symbol: Symbol)
    requires a.Valid() && lh.Filled(lit) && dh.Filled(dst) && LengthCode(lit) && DistanceCode(dst)
    modifies a
    ensures a.Valid() && Answers(symbol, Read(lit, dst, old(a.Stream()), old(a.consumed)), a.consumed)
  {
    var z := a.HuffmanDecode(lh, lit);
    if z < 0 {
      return Invalid;
    }
    if z < 256 {
      return Of(Literal(z));
    }
    if z == 256 {
      return EndOfBlock;
    }
    symbol := NextLength(a, dh, dst, z);
  }

  // ----- blocks of tokens -----

  /** What a failed decoding means for tokens that would write up to `size` bytes. */
  ghost predicate Reason(outcome: Outcome, k: Limits, size: nat) {
    outcome.Done? || (outcome.NoSpace? && !Room(k, size))
  }

  /** Every block that stands at position c is excused by the outcome. */
  ghost predicate Excused(outcome: Outcome, k: Limits, lit: Sizes, dst: Sizes, input: seq<nat>, c: nat,
      before: seq<nat>)
    requires LengthCode(lit) && DistanceCode(dst)
  {
    forall us, after ::
      BlockEnd(lit, dst, input, c, us) >= 0 && Expands(us, before, after) ==> Reason(outcome, k, |after|)
  }

  /** The outcome is the right one for a block that could not be decoded. */
  ghost predicate Answered(outcome: Outcome, k: Limits, lit: Sizes, dst: Sizes, input: seq<nat>, c: nat,
      before: seq<nat>)
    requires LengthCode(lit) && DistanceCode(dst)
  {
    Excused(outcome, k, lit, dst, input, c, before)
      && (outcome.Endless? <==> NeverEnds(lit, dst, input, c, |before|, k))
  }

  lemma AnswerBad(k: Limits, lit: Sizes, dst: Sizes, input: seq<nat>, c: nat, before: seq<nat>, ts: seq<Token>)
    requires LengthCode(lit) && DistanceCode(dst) && TokensEnd(lit, dst, input, c, ts) >= 0
    requires ReadAt(lit, dst, input, TokensEnd(lit, dst, input, c, ts)).Bad?
    ensures Answered(Corrupt, k, lit, dst, input, c, before)
  {
    forall us ensures BlockEnd(lit, dst, input, c, us) < 0 {
      if BlockEnd(lit, dst, input, c, us) >= 0 {
        ReadIsPrefix(lit, dst, input, c, ts, us, TokensEnd(lit, dst, input, c, ts));
      }
    }
    assert !Runs(lit, dst, input, c, |before|, k, |ts| + 1) by {
      forall us | |us| == |ts| + 1 ensures !GetsThrough(lit, dst, input, c, |before|, k, us) {
        if GetsThrough(lit, dst, input, c, |before|, k, us) { NextIsRead(lit, dst, input, c, ts, us); }
      }
    }
    NotForEver(lit, dst, input, c, |before|, k, |ts| + 1);
  }

  /** Tokens that stand at the same position begin in the same way. */
  lemma NextIsRead(lit: Sizes, dst: Sizes, input: seq<nat>, c: nat, ts: seq<Token>, us: seq<Token>)
    requires LengthCode(lit) && DistanceCode(dst) && |us| == |ts| + 1
    requires TokensEnd(lit, dst, input, c, ts) >= 0 && TokensEnd(lit, dst, input, c, us) >= 0
    ensures ts <= us && ReadAt(lit, dst, input, TokensEnd(lit, dst, input, c, ts)).Next?
  {
    ShorterIsPrefix(TokenReader(lit, dst, input), BlockStops(lit, dst, input), c, ts, us,
      TokensEnd(lit, dst, input, c, ts));
    TokenAfter(lit, dst, input, c, us, |ts|);
    assert us[..|ts|] == ts;
  }

  lemma AnswerEndless(k: Limits, lit: Sizes, dst: Sizes, input: seq<nat>, c: nat, before: seq<nat>, ts: seq<Token>)
    requires LengthCode(lit) && DistanceCode(dst) && AreBytes(input)
    requires GetsThrough(lit, dst, input, c, |before|, k, ts) && |ts| == Enough(|input|, k)
    ensures Answered(Endless, k, lit, dst, input, c, before)
  {
    NeverEndsExactly(lit, dst, input, c, |before|, k);
    forall us ensures BlockEnd(lit, dst, input, c, us) < 0 {
      if BlockEnd(lit, dst, input, c, us) >= 0 { StandingEnds(lit, dst, input, c, |before|, k, us); }
    }
  }

  /** The token read last cannot be written. */
  ghost predicate Refused(outcome: Outcome, k: Limits, t: Token, size: nat) {
    if outcome.Corrupt? then t.Copy? && t.distance > size else outcome.NoSpace? && !Room(k, size + Length(t))
  }

  lemma RefusedBlock(outcome: Outcome, k: Limits, ts: seq<Token>, t: Token, us: seq<Token>, before: seq<nat>,
      after: seq<nat>)
    requires ts + [t] <= us && Expands(us, before, after) && Refused(outcome, k, t, |before| + Size(ts))
    ensures Reason(outcome, k, |after|)
  {
    var m := ExpandsPrefix(ts + [t], us, before, after);
    ExpandsReaching(ts + [t], before, m);
    assert (ts + [t])[..|ts|] == ts;
    if Room(k, |after|) { RoomForLess(k, |m|, |after|); }
  }

  lemma RefusedRun(outcome: Outcome, k: Limits, ts: seq<Token>, t: Token, us: seq<Token>, size: nat)
    requires us == ts + [t] && Refused(outcome, k, t, size + Size(ts))
    ensures !(Reaching(us, size) && Room(k, size + Size(us)))
  {
    assert us[..|ts|] == ts;
  }

  lemma AnswerToken(outcome: Outcome, k: Limits,
      lit: Sizes, dst: Sizes, input: seq<nat>, c: nat, before: seq<nat>, ts: seq<Token>, t: Token, all: seq<Token>)
    requires LengthCode(lit) && DistanceCode(dst) && all == ts + [t] && TokensEnd(lit, dst, input, c, all) >= 0
    requires Refused(outcome, k, t, |before| + Size(ts))
    ensures Answered(outcome, k, lit, dst, input, c, before)
  {
    forall us, after | BlockEnd(lit, dst, input, c, us) >= 0 && Expands(us, before, after)
      ensures Reason(outcome, k, |after|)
    {
      ReadIsPrefix(lit, dst, input, c, all, us, TokensEnd(lit, dst, input, c, all));
      RefusedBlock(outcome, k, ts, t, us, before, after);
    }
    assert !Runs(lit, dst, input, c, |before|, k, |all|) by {
      forall us | |us| == |all| ensures !GetsThrough(lit, dst, input, c, |before|, k, us) {
        if TokensEnd(lit, dst, input, c, us) >= 0 {
          SameLength(TokenReader(lit, dst, input), BlockStops(lit, dst, input), c, all, us);
          RefusedRun(outcome, k, ts, t, us, |before|);
        }
      }
    }
    NotForEver(lit, dst, input, c, |before|, k, |all|);
  }

  /** Writes a token, if there is something to copy and room for it. */
  method WriteToken(out: OutBuf, t: Token) returns (outcome: Outcome)
    requires out.Valid()
    modifies out`cur, out`zout, out.zout
    ensures out.Valid() && (out.zout == old(out.zout) || fresh(out.zout))
    ensures if outcome.Done? then Writes(t, old(out.Out()), out.Out())
      else Refused(outcome, out.limits, t, old(out.cur))
  {
    if t.Copy? && out.cur < t.distance {
      return Corrupt;
    }
    var ok := out.Reserve(Length(t));
    if !ok {
      return NoSpace;
    }
    match t {
      case Literal(b) => out.Put(b);
      case Copy(len, dist) => out.CopyBack(len, dist);
    }
    return Done;
  }

  /** What has been decoded of the block. */
  ghost predicate Progress(lit: Sizes, dst: Sizes, a: BitBuf, out: OutBuf, c: nat, before: seq<nat>, ts: seq<Token>)
    requires out.Valid() && LengthCode(lit) && DistanceCode(dst)
    reads a`consumed, out`zout, out`cur, out.zout
  {
    TokensEnd(lit, dst, a.zbuffer, c, ts) == a.consumed && Expands(ts, before, out.Out())
  }

  lemma ProgressIsRun(lit: Sizes, dst: Sizes, a: BitBuf, out: OutBuf, c: nat, before: seq<nat>, ts: seq<Token>)
    requires out.Valid() && LengthCode(lit) && DistanceCode(dst) && Progress(lit, dst, a, out, c, before, ts)
    ensures GetsThrough(lit, dst, a.zbuffer, c, |before|, out.limits, ts) && out.cur == |before| + Size(ts)
  {
    ExpandsReaching(ts, before, out.Out());
    RoomSoFar(out);
  }

  /** Decodes a block of tokens.  The decoder has no bound on their number; a block of that many
      never ends. */
  method ParseHuffmanBlock(a: BitBuf, out: OutBuf, lh: Huffman, dh: Huffman, ghost lit: Sizes, ghost dst: Sizes)
    returns (outcome: Outcome, ghost ts: seq<Token>)
    requires a.Valid() && out.Valid() && lh.Filled(lit) && dh.Filled(dst) && LengthCode(lit) && DistanceCode(dst)
    requires out.zout !in lh.Arrays() + dh.Arrays()
    modifies a, out`cur, out`zout, out.zout
    ensures a.Valid() && out.Valid() && (out.zout == old(out.zout) || fresh(out.zout))
    ensures outcome.Done? ==> BlockEnd(lit, dst, a.zbuffer, old(a.consumed), ts) == a.consumed
    ensures outcome.Done? ==> Expands(ts, old(out.Out()), out.Out())
    ensures !outcome.Done? ==> Answered(outcome, out.limits, lit, dst, a.zbuffer, old(a.consumed), old(out.Out()))
  {
    ghost var c, before := a.consumed, out.Out();
    ts := [];
    var i, enough := 0, Enough(|a.zbuffer|, out.limits);
    while i < enough
      invariant i <= enough && |ts| == i && a.Valid() && out.Valid() && (out.zout == old(out.zout) || fresh(out.zout))
      invariant Progress(lit, dst, a, out, c, before, ts)
    {
      var more;
      more, outcome, ts := ParseToken(a, out, lh, dh, lit, dst, c, before, ts);
      if !more {
        return;
      }
      i := i + 1;
    }
    ProgressIsRun(lit, dst, a, out, c, before, ts);
    AnswerEndless(out.limits, lit, dst, a.zbuffer, c, before, ts);
    return Endless, ts;
  }

  /** Writes the token that has been read. */
  method TakeToken(a: BitBuf, out: OutBuf, t: Token, ghost lit: Sizes, ghost dst: Sizes,
      ghost c: nat, ghost before: seq<nat>, ghost ts: seq<Token>, ghost all: seq<Token>)
        returns (more: bool, outcome: Outcome)
    requires out.Valid() && LengthCode(lit) && DistanceCode(dst) && all == ts + [t]
    requires TokensEnd(lit, dst, a.zbuffer, c, all) == a.consumed && Expands(ts, before, out.Out())
    modifies out`cur, out`zout, out.zout
    ensures out.Valid() && (out.zout == old(out.zout) || fresh(out.zout))
    ensures if more then Progress(lit, dst, a, out, c, before, all)
      else !outcome.Done? && Answered(outcome, out.limits, lit, dst, a.zbuffer, c, before)
  {
    ghost var mid := out.Out();
    ExpandsSize(ts, before, mid);
    outcome := WriteToken(out, t);
    more := outcome.Done?;
    if more {
      ExpandsNext(ts, t, before, mid, out.Out());
    } else {
      AnswerToken(outcome, out.limits, lit, dst, a.zbuffer, c, before, ts, t, all);
    }
  }

  /** Decodes one token, or the end of the block. */
  method ParseToken(a: BitBuf, out: OutBuf, lh: Huffman, dh: Huffman, ghost lit: Sizes, ghost dst: Sizes,
      ghost c: nat, ghost before: seq<nat>, ghost ts0: seq<Token>)
        returns (more: bool, outcome: Outcome, ghost ts: seq<Token>)
    requires a.Valid() && out.Valid() && lh.Filled(lit) && dh.Filled(dst) && LengthCode(lit) && DistanceCode(dst)
    requires out.zout !in lh.Arrays() + dh.Arrays() && Progress(lit, dst, a, out, c, before, ts0)
    modifies a, out`cur, out`zout, out.zout
    ensures a.Valid() && out.Valid() && (out.zout == old(out.zout) || fresh(out.zout))
    ensures more ==> |ts| == |ts0| + 1 && Progress(lit, dst, a, out, c, before, ts)
    ensures !more && outcome.Done? ==>
      BlockEnd(lit, dst, a.zbuffer, c, ts) == a.consumed && Expands(ts, before, out.Out())
    ensures !more && !outcome.Done? ==> Answered(outcome, out.limits, lit, dst, a.zbuffer, c, before)
  {
    more, outcome, ts := false, Done, ts0;
    ghost var u := a.consumed;
    var symbol := NextSymbol(a, lh, dh, lit, dst);
    match symbol {
      case Invalid =>
        AnswerBad(out.limits, lit, dst, a.zbuffer, c, before, ts);
        outcome := Corrupt;
      case EndOfBlock =>
      case Of(t) =>
        TokensNext(lit, dst, a.zbuffer, c, ts, u);
        ts := ts + [t];
        more, outcome := TakeToken(a, out, t, lit, dst, c, before, ts0, ts);
    }
  }
}
