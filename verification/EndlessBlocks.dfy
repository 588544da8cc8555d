/** Blocks of tokens that never end.

    Past its last byte the input reads as zeros, so a block that gets there reads the same token
    for ever.  Two symbols mean copies of no bytes, and with them the decoder writes nothing more
    and does not stop; in all other cases it stops. */
module EndlessBlocks {
  import opened Wrappers
  import opened Bits
  import opened CanonicalCode
  import opened Succession
  import opened ZBuf
  import opened OutBuf
  import opened Deflate

  // ----- running for n tokens -----

  /** After n bytes, no token reaches back past the start. */
  predicate Reaching(ts: seq<Token>, n: nat) {
    ts != [] ==>
      var t, rest := ts[|ts| - 1], ts[..|ts| - 1];
      Reaching(rest, n) && (t.Copy? ==> t.distance <= n + Size(rest))
  }

  /** Tokens can be written exactly if they reach back no further than the start. */
  lemma {:induction false} ReachingExpands(ts: seq<Token>, before: seq<nat>) returns (after: seq<nat>)
    requires Reaching(ts, |before|)
    ensures Expands(ts, before, after)
  {
    if ts == [] {
      after := before;
    } else {
      var t, rest := ts[|ts| - 1], ts[..|ts| - 1];
      var mid := ReachingExpands(rest, before);
      ExpandsSize(rest, before, mid);
      after := SomeWritten(t, mid);
      ExpandsNext(rest, t, before, mid, after);
      assert rest + [t] == ts;
    }
  }

  lemma {:induction false} ExpandsReaching(ts: seq<Token>, before: seq<nat>, after: seq<nat>)
    requires Expands(ts, before, after)
    ensures Reaching(ts, |before|) && |after| == |before| + Size(ts)
  {
    ExpandsSize(ts, before, after);
    if ts != [] {
      var mid := after[..|after| - Length(ts[|ts| - 1])];
      ExpandsSize(ts[..|ts| - 1], before, mid);
      ExpandsReaching(ts[..|ts| - 1], before, mid);
    }
  }

  /** The decoder gets through these tokens from position c on, after `size` bytes. */
  ghost predicate GetsThrough(lit: Sizes, dst: Sizes, input: seq<nat>, c: nat, size: nat, k: Limits, ts: seq<Token>)
    requires LengthCode(lit) && DistanceCode(dst)
  {
    TokensEnd(lit, dst, input, c, ts) >= 0 && Reaching(ts, size) && Room(k, size + Size(ts))
  }

  ghost predicate Runs(lit: Sizes, dst: Sizes, input: seq<nat>, c: nat, size: nat, k: Limits, n: nat)
    requires LengthCode(lit) && DistanceCode(dst)
  {
    exists ts :: |ts| == n && GetsThrough(lit, dst, input, c, size, k, ts)
  }

  /** However many tokens the decoder has read, it reads another one.  Under a lock. */
  ghost predicate NeverEnds(lit: Sizes, dst: Sizes, input: seq<nat>, c: nat, size: nat, k: Limits)
    requires LengthCode(lit) && DistanceCode(dst)
  {
    forall n: nat, key: nat {:trigger Runs(lit, dst, input, c, size, k, n), Unlock(key)} :: Unlock(key) ==>
      Runs(lit, dst, input, c, size, k, n)
  }

  // ----- past the end of the input -----

  /** What stands there: always the same. */
  lemma ReadPastEnd(lit: Sizes, dst: Sizes, input: seq<nat>, c: nat)
    requires LengthCode(lit) && DistanceCode(dst) && AreBytes(input) && c >= 8 * |input|
    ensures StreamAt(input, c) == 0 && ReadAt(lit, dst, input, c) == Read(lit, dst, 0, c)
  {
    DropBytes(input, |input|);
    ShrShr(LittleEndian(input), 8 * |input|, c - 8 * |input|);
    ZeroStream(c - 8 * |input|);
  }

  /** The same token, or the end of the block, or nothing, wherever zeros stand. */
  lemma ReadZeros(lit: Sizes, dst: Sizes, c: nat, c': nat)
    requires LengthCode(lit) && DistanceCode(dst)
    ensures var r, r' := Read(lit, dst, 0, c), Read(lit, dst, 0, c');
      (r.Next? <==> r'.Next?) && (r.Stop? <==> r'.Stop?) && (r.Next? ==> r'.token == r.token)
  {
    var s := Decoded(lit, 0);
    if s > 256 {
      ZeroStream(lit[s]);
      ZeroStream(LengthExtra(s - 257));
    }
  }

  /** The codes read zeros as a copy of no bytes from a distance of d. */
  ghost predicate CopiesNothing(lit: Sizes, dst: Sizes, d: nat)
    requires LengthCode(lit) && DistanceCode(dst)
  {
    286 <= Decoded(lit, 0) <= 287 && Decoded(dst, 0) >= 0 && d == DistanceBase(Decoded(dst, 0))
  }

  lemma LengthBasePositive(s: nat)
    requires s < 29
    ensures LengthBase(s) > 0
  {
    LengthValues();
    match s
    case 0 => case 1 => case 2 => case 3 => case 4 => case 5 => case 6 => case 7 => case 8 => case 9 => case 10
    => case 11 => case 12 => case 13 => case 14 => case 15 => case 16 => case 17 => case 18 => case 19 => case
    20 => case 21 => case 22 => case 23 => case 24 => case 25 => case 26 => case 27 => case 28 =>
  }

  lemma ZeroToken(lit: Sizes, dst: Sizes, c: nat, d: nat)
    requires LengthCode(lit) && DistanceCode(dst)
    ensures CopiesNothing(lit, dst, d) <==> Read(lit, dst, 0, c).Next? && Read(lit, dst, 0, c).token == Copy(0, d)
    ensures Read(lit, dst, 0, c).Next? && Length(Read(lit, dst, 0, c).token) == 0 ==> Read(lit, dst, 0, c).token.Copy?
  {
    var s := Decoded(lit, 0);
    if s > 256 {
      ZeroStream(lit[s]);
      ZeroStream(LengthExtra(s - 257));
      if s < 286 { LengthBasePositive(s - 257); }
      var e := Decoded(dst, 0);
      if e >= 0 {
        ZeroStream(dst[e]);
        ZeroStream(DistanceExtra(e));
      }
    }
  }

  // ----- where the decoder gets caught -----

  /** The decoder gets past the end of the input, where it reads copies of no bytes from a distance
      that there is. */
  ghost predicate Trapped(lit: Sizes, dst: Sizes, input: seq<nat>, c: nat, size: nat, k: Limits, ts: seq<Token>, d: nat)
    requires LengthCode(lit) && DistanceCode(dst)
  {
    && GetsThrough(lit, dst, input, c, size, k, ts) && TokensEnd(lit, dst, input, c, ts) >= 8 * |input|
    && CopiesNothing(lit, dst, d) && d <= size + Size(ts)
  }

  ghost predicate Trap(lit: Sizes, dst: Sizes, input: seq<nat>, c: nat, size: nat, k: Limits)
    requires LengthCode(lit) && DistanceCode(dst)
  {
    exists ts, d :: Trapped(lit, dst, input, c, size, k, ts, d)
  }

  /** More tokens than any block has that ends. */
  function Enough(bytes: nat, k: Limits): nat {
    8 * bytes + Most(k) + 1
  }

  lemma {:induction false} SizeOfPrefix(ts: seq<Token>, n: nat)
    requires n <= |ts|
    ensures Size(ts[..n]) <= Size(ts)
    decreases |ts|
  {
    if n < |ts| {
      SizeOfPrefix(ts[..|ts| - 1], n);
      assert ts[..|ts| - 1][..n] == ts[..n];
    } else {
      assert ts[..n] == ts;
    }
  }

  lemma {:induction false} ReachingPrefix(ts: seq<Token>, size: nat, n: nat)
    requires Reaching(ts, size) && n <= |ts|
    ensures Reaching(ts[..n], size)
    decreases |ts|
  {
    if n < |ts| {
      ReachingPrefix(ts[..|ts| - 1], size, n);
      assert ts[..|ts| - 1][..n] == ts[..n];
    } else {
      assert ts[..n] == ts;
    }
  }

  lemma PrefixGetsThrough(lit: Sizes, dst: Sizes, input: seq<nat>, c: nat, size: nat, k: Limits, ts: seq<Token>, n: nat)
    requires LengthCode(lit) && DistanceCode(dst) && GetsThrough(lit, dst, input, c, size, k, ts) && n <= |ts|
    ensures GetsThrough(lit, dst, input, c, size, k, ts[..n])
  {
    PrefixStands(TokenReader(lit, dst, input), BlockStops(lit, dst, input), c, ts, n);
    ReachingPrefix(ts, size, n);
    SizeOfPrefix(ts, n);
    RoomForLess(k, size + Size(ts[..n]), size + Size(ts));
  }

  /** The token read after the first n. */
  lemma TokenAfter(lit: Sizes, dst: Sizes, input: seq<nat>, c: nat, ts: seq<Token>, n: nat)
    requires LengthCode(lit) && DistanceCode(dst) && TokensEnd(lit, dst, input, c, ts) >= 0 && n < |ts|
    ensures var u := TokensEnd(lit, dst, input, c, ts[..n]);
      u >= c + n && ReadAt(lit, dst, input, u).Next? && ReadAt(lit, dst, input, u).token == ts[n]
  {
    var at, stops := TokenReader(lit, dst, input), BlockStops(lit, dst, input);
    PrefixStands(at, stops, c, ts, n);
    PrefixStands(at, stops, c, ts, n + 1);
    EndOfGrows(at, stops, c, ts[..n]);
    assert ts[..n + 1][..n] == ts[..n];
  }

  /** Past the end of the input all tokens are the same. */
  lemma TokenPastEnd(lit: Sizes, dst: Sizes, input: seq<nat>, c: nat, ts: seq<Token>, n: nat)
    requires LengthCode(lit) && DistanceCode(dst) && AreBytes(input)
    requires TokensEnd(lit, dst, input, c, ts) >= 0 && n < |ts| && c + n >= 8 * |input|
    ensures Read(lit, dst, 0, c).Next? && ts[n] == Read(lit, dst, 0, c).token
  {
    var u := TokensEnd(lit, dst, input, c, ts[..n]);
    TokenAfter(lit, dst, input, c, ts, n);
    ReadPastEnd(lit, dst, input, u);
    ReadZeros(lit, dst, u, c);
  }

  lemma {:induction false} SizeOfRest(ts: seq<Token>, n: nat)
    requires n <= |ts| && forall i :: n <= i < |ts| ==> Length(ts[i]) > 0
    ensures Size(ts) >= |ts| - n
    decreases |ts|
  {
    if n < |ts| { SizeOfRest(ts[..|ts| - 1], n); }
  }

  lemma ReachOf(ts: seq<Token>, size: nat, n: nat)
    requires Reaching(ts, size) && n < |ts| && ts[n].Copy?
    ensures ts[n].distance <= size + Size(ts[..n])
  {
    ReachingPrefix(ts, size, n + 1);
    assert ts[..n + 1][..n] == ts[..n];
  }

  /** There is no room for that many tokens past the end but for copies of no bytes. */
  lemma NothingIsCopied(lit: Sizes, dst: Sizes, input: seq<nat>, c: nat, k: Limits, ts: seq<Token>, m: nat)
    returns (d: nat)
    requires LengthCode(lit) && DistanceCode(dst) && AreBytes(input) && TokensEnd(lit, dst, input, c, ts) >= 0
    requires m == 8 * |input| && Size(ts) <= Most(k) && |ts| > m + Most(k)
    ensures ts[m] == Copy(0, d) && CopiesNothing(lit, dst, d)
  {
    TokenPastEnd(lit, dst, input, c, ts, m);
    forall n: nat | m <= n < |ts| ensures ts[n] == ts[m] {
      TokenPastEnd(lit, dst, input, c, ts, n);
    }
    if Length(ts[m]) > 0 { SizeOfRest(ts, m); }
    ZeroToken(lit, dst, c, 0);
    d := ts[m].distance;
    ZeroToken(lit, dst, c, d);
  }

  /** A decoder that reads that many tokens is caught. */
  lemma CaughtByThen(lit: Sizes, dst: Sizes, input: seq<nat>, c: nat, size: nat, k: Limits, ts: seq<Token>)
    requires LengthCode(lit) && DistanceCode(dst) && AreBytes(input)
    requires GetsThrough(lit, dst, input, c, size, k, ts) && |ts| >= Enough(|input|, k)
    ensures Trap(lit, dst, input, c, size, k)
  {
    var m := 8 * |input|;
    RoomIsBounded(k, size + Size(ts));
    var d := NothingIsCopied(lit, dst, input, c, k, ts, m);
    PrefixGetsThrough(lit, dst, input, c, size, k, ts, m);
    TokenAfter(lit, dst, input, c, ts, m);
    ReachOf(ts, size, m);
    assert Trapped(lit, dst, input, c, size, k, ts[..m], d);
  }

  /** Once caught, the decoder goes on for as long as one likes. */
  lemma {:induction false} GoesOn(lit: Sizes, dst: Sizes, input: seq<nat>, c: nat, size: nat, k: Limits,
      ts: seq<Token>, d: nat, n: nat)
      returns (us: seq<Token>)
    requires LengthCode(lit) && DistanceCode(dst) && AreBytes(input) && Trapped(lit, dst, input, c, size, k, ts, d)
      && n >= |ts|
    ensures |us| == n && Trapped(lit, dst, input, c, size, k, us, d)
    decreases n - |ts|
  {
    if n == |ts| {
      us := ts;
    } else {
      var u, more := TokensEnd(lit, dst, input, c, ts), ts + [Copy(0, d)];
      ReadPastEnd(lit, dst, input, u);
      ZeroToken(lit, dst, u, d);
      TokensNext(lit, dst, input, c, ts, u);
      assert more[..|ts|] == ts;
      us := GoesOn(lit, dst, input, c, size, k, more, d, n);
    }
  }

  /** The decoder is caught as soon as only zeros are left. */
  lemma {:induction false} CaughtByZeros(lit: Sizes, dst: Sizes, input: seq<nat>, c: nat, size: nat, k: Limits,
      ts: seq<Token>, d: nat)
    requires LengthCode(lit) && DistanceCode(dst) && AreBytes(input) && GetsThrough(lit, dst, input, c, size, k, ts)
    requires StreamAt(input, TokensEnd(lit, dst, input, c, ts)) == 0 && CopiesNothing(lit, dst, d)
      && d <= size + Size(ts)
    ensures Trap(lit, dst, input, c, size, k)
    decreases 8 * |input| - TokensEnd(lit, dst, input, c, ts)
  {
    var u, more := TokensEnd(lit, dst, input, c, ts), ts + [Copy(0, d)];
    if u >= 8 * |input| {
      assert Trapped(lit, dst, input, c, size, k, ts, d);
    } else {
      ZeroToken(lit, dst, u, d);
      TokensNext(lit, dst, input, c, ts, u);
      assert more[..|ts|] == ts;
      var v := TokensEnd(lit, dst, input, c, more);
      ShrOn(LittleEndian(input), u, v - u, v);
      ZeroStream(v - u);
      CaughtByZeros(lit, dst, input, c, size, k, more, d);
    }
  }

  /** When a block never ends: exactly when the decoder gets caught; and then, and only then, it
      gets through enough tokens. */
  lemma NeverEndsExactly(lit: Sizes, dst: Sizes, input: seq<nat>, c: nat, size: nat, k: Limits)
    requires LengthCode(lit) && DistanceCode(dst) && AreBytes(input)
    ensures NeverEnds(lit, dst, input, c, size, k) <==> Trap(lit, dst, input, c, size, k)
    ensures NeverEnds(lit, dst, input, c, size, k) <==> Runs(lit, dst, input, c, size, k, Enough(|input|, k))
  {
    assert Unlock(0);
    var enough := Enough(|input|, k);
    assert NeverEnds(lit, dst, input, c, size, k) ==> Runs(lit, dst, input, c, size, k, enough);
    if Runs(lit, dst, input, c, size, k, enough) {
      var ts :| |ts| == enough && GetsThrough(lit, dst, input, c, size, k, ts);
      CaughtByThen(lit, dst, input, c, size, k, ts);
    }
    if Trap(lit, dst, input, c, size, k) {
      var ts, d :| Trapped(lit, dst, input, c, size, k, ts, d);
      forall n: nat ensures Runs(lit, dst, input, c, size, k, n) {
        if n <= |ts| {
          PrefixGetsThrough(lit, dst, input, c, size, k, ts, n);
        } else {
          var us := GoesOn(lit, dst, input, c, size, k, ts, d, n);
        }
      }
    }
  }

  // ----- blocks that end -----

  /** A block that stands in the input starts no token past its end. */
  lemma BlockIsShort(lit: Sizes, dst: Sizes, input: seq<nat>, c: nat, ts: seq<Token>)
    requires LengthCode(lit) && DistanceCode(dst) && AreBytes(input) && BlockEnd(lit, dst, input, c, ts) >= 0
    ensures ts != [] ==> c + |ts| <= 8 * |input|
  {
    var u, n := TokensEnd(lit, dst, input, c, ts), |ts| - 1;
    if ts != [] && c + n >= 8 * |input| {
      TokenPastEnd(lit, dst, input, c, ts, n);
      EndOfGrows(TokenReader(lit, dst, input), BlockStops(lit, dst, input), c, ts);
      ReadPastEnd(lit, dst, input, u);
      ReadZeros(lit, dst, u, c);
    }
  }

  /** A block that stands is not one that never ends. */
  lemma StandingEnds(lit: Sizes, dst: Sizes, input: seq<nat>, c: nat, size: nat, k: Limits, ts: seq<Token>)
    requires LengthCode(lit) && DistanceCode(dst) && BlockEnd(lit, dst, input, c, ts) >= 0
    ensures !NeverEnds(lit, dst, input, c, size, k)
  {
    assert Unlock(0);
    var n := |ts| + 1;
    forall us | |us| == n ensures !GetsThrough(lit, dst, input, c, size, k, us) {
      if GetsThrough(lit, dst, input, c, size, k, us) {
        ReadIsPrefix(lit, dst, input, c, us, ts, TokensEnd(lit, dst, input, c, us));
      }
    }
    assert !Runs(lit, dst, input, c, size, k, n);
  }

  lemma NotForEver(lit: Sizes, dst: Sizes, input: seq<nat>, c: nat, size: nat, k: Limits, n: nat)
    requires LengthCode(lit) && DistanceCode(dst) && !Runs(lit, dst, input, c, size, k, n)
    ensures !NeverEnds(lit, dst, input, c, size, k)
  {
    assert Unlock(0);
  }

  lemma HasRoom(lit: Sizes, dst: Sizes, input: seq<nat>, c: nat, size: nat, k: Limits)
    requires LengthCode(lit) && DistanceCode(dst) && NeverEnds(lit, dst, input, c, size, k)
    ensures Room(k, size)
  {
    assert Unlock(0);
    assert Runs(lit, dst, input, c, size, k, 0);
  }
}
