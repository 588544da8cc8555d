/** What the inflate decoder promises its callers. */
module InflateResults {
  import opened Wrappers
  import opened Bits
  import opened CanonicalCode
  import opened Succession
  import opened ZBuf
  import opened OutBuf
  import opened Deflate
  import opened DeflateStream
  import opened EndlessBlocks
  import opened Inflate
  import opened InflateStream

  /** What the decoder may leave of the stream that the input holds. */
  ghost predicate Possible(input: seq<nat>, header: bool, output: seq<nat>) {
    exists bs :: Holds(input, header, bs) && Expands(AllTokens(bs), [], output)
  }

  lemma PossibleIs(input: seq<nat>, header: bool, bs: seq<Block>, output: seq<nat>)
    requires Holds(input, header, bs)
    ensures Possible(input, header, output) <==> Expands(AllTokens(bs), [], output)
  {
    if bs' :| Holds(input, header, bs') && Expands(AllTokens(bs'), [], output) {
      StreamUnique(input, if header then 16 else 0, bs, bs');
    }
  }

  /** The input can only be decoded to o. */
  ghost predicate OnlyPossible(input: seq<nat>, header: bool, o: seq<nat>) {
    Possible(input, header, o) && forall o' :: Possible(input, header, o') ==> o' == o
  }

  lemma OnlyPossibleIs(input: seq<nat>, header: bool, bs: seq<Block>, o: seq<nat>)
    requires Holds(input, header, bs)
    ensures OnlyPossible(input, header, o) <==> Only(AllTokens(bs), [], o)
  {
    forall r ensures Possible(input, header, r) <==> Expands(AllTokens(bs), [], r) { PossibleIs(input, header, bs, r); }
  }

  /** Whatever size the buffer had at first and however often it grew, all successful decodings of an input agree
      exactly if no token of its stream reaches back too far or copies anything from distance zero; what they write
      is then the expansion of the tokens. */
  lemma OutputIsExpansion(input: seq<nat>, header: bool, bs: seq<Block>)
    requires Holds(input, header, bs)
    ensures Definite(AllTokens(bs), 0) ==> OnlyPossible(input, header, Expansion(AllTokens(bs), []))
    ensures Definite(AllTokens(bs), 0) <==> exists o :: OnlyPossible(input, header, o)
  {
    var ts := AllTokens(bs);
    if Definite(ts, 0) {
      DefiniteOnly(ts, []);
      OnlyPossibleIs(input, header, bs, Expansion(ts, []));
    }
    if o :| OnlyPossible(input, header, o) {
      OnlyPossibleIs(input, header, bs, o);
      OnlyDefinite(ts, [], o);
    }
  }

  /** A growing buffer has room for half of what the allocator grants, at least. */
  lemma RoomForHalf(k: Limits, size: nat)
    requires k.expandable && 0 < k.capacity <= k.maxAlloc && 2 * size <= k.maxAlloc
    ensures Room(k, size)
  {
    DoubledIsClose(k.capacity, size);
  }

  lemma {:induction false} DoubledIsClose(capacity: nat, need: nat)
    requires capacity > 0
    ensures Doubled(capacity, need) == capacity || Doubled(capacity, need) < 2 * need
    decreases if need <= capacity then 0 else need - capacity
  {
    if need > capacity { DoubledIsClose(2 * capacity, need); }
  }

  /** What becomes of the stream that an input holds depends on its size alone, if its tokens reach back no further
      than the start; and if they are definite, it is known byte by byte. */
  ghost predicate Verdict(outcome: Outcome, output: seq<nat>, k: Limits, ts: seq<Token>)
    requires Inside(ts, 0)
  {
    if Room(k, Size(ts)) then
      outcome == Done && Expands(ts, [], output) && (Definite(ts, 0) ==> output == Expansion(ts, []))
    else outcome == NoSpace
  }

  lemma SizedExpansion(ts: seq<Token>) returns (after: seq<nat>)
    requires Inside(ts, 0)
    ensures Expands(ts, [], after) && |after| == Size(ts)
  {
    after := SomeExpansion(ts, []);
    ExpandsSize(ts, [], after);
  }

  lemma SizeAndBytes(ts: seq<Token>, output: seq<nat>)
    requires Expands(ts, [], output)
    ensures |output| == Size(ts) && (Definite(ts, 0) ==> output == Expansion(ts, []))
  {
    ExpandsSize(ts, [], output);
    if Definite(ts, 0) { ExpandsIsExpansion(ts, [], output); }
  }

  lemma ReasonHolds(outcome: Outcome, k: Limits, input: seq<nat>, header: bool, all: seq<Block>, after: seq<nat>)
    requires ZlibExcused(outcome, k, input, header) && Holds(input, header, all) && Expands(AllTokens(all), [], after)
    ensures Reason(outcome, k, |after|)
  {}

  lemma VerdictIs(outcome: Outcome, output: seq<nat>, k: Limits, input: seq<nat>, header: bool, bs: seq<Block>,
      all: seq<Block>)
    requires outcome.Done? ==> Holds(input, header, bs) && Expands(AllTokens(bs), [], output) && Room(k, |output|)
    requires !outcome.Done? ==> ZlibExcused(outcome, k, input, header)
    requires Holds(input, header, all) && Inside(AllTokens(all), 0)
    ensures Verdict(outcome, output, k, AllTokens(all))
  {
    if outcome.Done? {
      StreamUnique(input, if header then 16 else 0, bs, all);
      SizeAndBytes(AllTokens(all), output);
    } else {
      var after := SizedExpansion(AllTokens(all));
      ReasonHolds(outcome, k, input, header, all, after);
    }
  }

  /** Decodes into a buffer of its own, which grows as far as the allocator grants.  A stream that reaches back no
      further than the start is expanded if and only if there is room for it; nothing is returned but what it may
      mean; and the decoder fails to come back if and only if it is trapped. */
  method DecodeMalloc(buffer: seq<nat>, initialSize: nat, maxAlloc: nat, header: bool)
    returns (outcome: Outcome, output: seq<nat>)
    requires AreBytes(buffer) && initialSize > 0
    ensures initialSize > maxAlloc ==> outcome == NoSpace
    ensures outcome.Done? ==> Possible(buffer, header, output)
    ensures initialSize <= maxAlloc ==> forall bs :: Holds(buffer, header, bs) && Inside(AllTokens(bs), 0) ==>
      Verdict(outcome, output, Limits(initialSize, true, maxAlloc), AllTokens(bs))
    ensures initialSize <= maxAlloc ==>
      (outcome.Endless? <==> HoldsTrap(buffer, header, Limits(initialSize, true, maxAlloc)))
  {
    if initialSize > maxAlloc {
      return NoSpace, [];
    }
    ghost var bs, k := [], Limits(initialSize, true, maxAlloc);
    outcome, output, bs := DoZlib(buffer, initialSize, true, maxAlloc, header);
    forall all | Holds(buffer, header, all) && Inside(AllTokens(all), 0)
      ensures Verdict(outcome, output, k, AllTokens(all))
    {
      VerdictIs(outcome, output, k, buffer, header, bs, all);
    }
  }

  // ----- how many tokens a stream has -----

  lemma BlockTokensFew(input: seq<nat>, c: nat, b: Block, end: nat)
    requires AreBytes(input) && BlockAt(input, c, b) == end
    ensures c + |BlockTokens(b)| <= end && c + |BlockTokens(b)| <= 8 * |input|
  {
    BlockInside(input, c, b);
    if b.Coded? {
      var h := TablesAt(input, c + 3, Low(StreamAt(input, c + 1), KIND_BITS));
      BlockIsShort(h.lit, h.dst, input, h.to, b.tokens);
      EndOfGrows(TokenReader(h.lit, h.dst, input), BlockStops(h.lit, h.dst, input), h.to, b.tokens);
    }
  }

  lemma {:induction false} BlocksTokensFew(input: seq<nat>, c: nat, bs: seq<Block>, end: nat)
    requires AreBytes(input) && BlocksEnd(input, c, bs) == end
    ensures c + |AllTokens(bs)| <= end
  {
    if bs != [] {
      var most := bs[..|bs| - 1];
      var u := BlocksEnd(input, c, most);
      BlocksTokensFew(input, c, most, u);
      BlockTokensFew(input, u, bs[|bs| - 1], end);
    }
  }

  /** No stream has more tokens than its input has bits. */
  lemma StreamIsShort(input: seq<nat>, header: bool, bs: seq<Block>)
    requires AreBytes(input) && Holds(input, header, bs)
    ensures |AllTokens(bs)| <= 8 * |input|
  {
    assert Unlock(0);
    var c, most := if header then 16 else 0, bs[..|bs| - 1];
    var u := BlocksEnd(input, c, most);
    BlocksTokensFew(input, c, most, u);
    BlockTokensFew(input, u, bs[|bs| - 1], BlockAt(input, u, bs[|bs| - 1]));
  }
}
