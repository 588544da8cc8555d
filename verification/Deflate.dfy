/** The compressed data format (RFC 1951): tokens, what they write, and how blocks of them stand
    in a stream of bits. */
module Deflate {
  import opened Wrappers
  import opened Bits
  import opened CanonicalCode
  import opened Succession
  import opened ZBuf

  // ----- tokens and what they write -----

  datatype Token = Literal(byte: nat) | Copy(length: nat, distance: nat)

  function Length(t: Token): nat {
    match t
    case Literal(_) => 1
    case Copy(n, _) => n
  }

  function Size(ts: seq<Token>): nat {
    if ts == [] then 0 else Size(ts[..|ts| - 1]) + Length(ts[|ts| - 1])
  }

  /** Writing t after `before` may leave `after`.  The bytes of a copy repeat the ones at its
      distance, those it has just written included (section 3.2.3).  The format has no distance
      zero; the decoder lets two symbols through that mean it, and leaves arbitrary bytes. */
  ghost predicate Writes(t: Token, before: seq<nat>, after: seq<nat>) {
    match t
    case Literal(b) => after == before + [b]
    case Copy(n, d) =>
      && d <= |before| && |after| == |before| + n && before <= after
      && forall k :: |before| <= k < |after| ==> after[k] == after[k - d]
  }

  ghost predicate Expands(ts: seq<Token>, before: seq<nat>, after: seq<nat>) {
    if ts == [] then after == before
    else
      var t := ts[|ts| - 1];
      && Length(t) <= |after|
      && Expands(ts[..|ts| - 1], before, after[..|after| - Length(t)])
      && Writes(t, after[..|after| - Length(t)], after)
  }

  lemma WritesLength(t: Token, before: seq<nat>, after: seq<nat>)
    requires Writes(t, before, after)
    ensures |after| == |before| + Length(t) && after[..|before|] == before
  {}

  lemma ExpandsNext(ts: seq<Token>, t: Token, before: seq<nat>, mid: seq<nat>, after: seq<nat>)
    requires Expands(ts, before, mid) && Writes(t, mid, after)
    ensures Expands(ts + [t], before, after)
  {
    WritesLength(t, mid, after);
    assert (ts + [t])[..|ts|] == ts;
  }

  lemma {:induction false} ExpandsSize(ts: seq<Token>, before: seq<nat>, after: seq<nat>)
    requires Expands(ts, before, after)
    ensures |after| == |before| + Size(ts) && before <= after
  {
    if ts != [] {
      var mid := after[..|after| - Length(ts[|ts| - 1])];
      ExpandsSize(ts[..|ts| - 1], before, mid);
    }
  }

  lemma {:induction false} ExpandsJoin(ts: seq<Token>, us: seq<Token>, before: seq<nat>, mid: seq<nat>, after: seq<nat>)
    requires Expands(ts, before, mid) && Expands(us, mid, after)
    ensures Expands(ts + us, before, after)
  {
    if us == [] {
      assert ts + us == ts;
    } else {
      var t := us[|us| - 1];
      var mid' := after[..|after| - Length(t)];
      ExpandsJoin(ts, us[..|us| - 1], before, mid, mid');
      ExpandsNext(ts + us[..|us| - 1], t, before, mid', after);
      assert ts + us[..|us| - 1] + [t] == ts + us;
    }
  }

  /** A prefix of the tokens writes a prefix of the bytes. */
  lemma {:induction false} ExpandsPrefix(ts: seq<Token>, us: seq<Token>, before: seq<nat>, after: seq<nat>)
    returns (mid: seq<nat>)
    requires ts <= us && Expands(us, before, after)
    ensures Expands(ts, before, mid) && mid <= after
    decreases |us|
  {
    if |ts| == |us| {
      assert ts == us;
      mid := after;
    } else {
      var mid' := after[..|after| - Length(us[|us| - 1])];
      mid := ExpandsPrefix(ts, us[..|us| - 1], before, mid');
    }
  }

  lemma {:induction false} ExpandsSplit(ts: seq<Token>, us: seq<Token>, before: seq<nat>, after: seq<nat>)
    returns (mid: seq<nat>)
    requires Expands(ts + us, before, after)
    ensures Expands(ts, before, mid) && Expands(us, mid, after) && mid <= after
    decreases |us|
  {
    if us == [] {
      assert ts + us == ts;
      mid := after;
    } else {
      var t, rest := us[|us| - 1], us[..|us| - 1];
      assert (ts + us)[..|ts + us| - 1] == ts + rest;
      mid := ExpandsSplit(ts, rest, before, after[..|after| - Length(t)]);
    }
  }

  /** After other bytes, as many of them, the same tokens write as many bytes. */
  lemma {:induction false} ExpandsElsewhere(ts: seq<Token>, before: seq<nat>, after: seq<nat>, before': seq<nat>)
      returns (after': seq<nat>)
    requires Expands(ts, before, after) && |before| == |before'|
    ensures Expands(ts, before', after') && |after'| == |after|
  {
    if ts == [] {
      after' := before';
    } else {
      var t, rest := ts[|ts| - 1], ts[..|ts| - 1];
      var mid' := ExpandsElsewhere(rest, before, after[..|after| - Length(t)], before');
      after' := SomeWritten(t, mid');
      ExpandsNext(rest, t, before', mid', after');
      assert rest + [t] == ts;
    }
  }

  /** Whatever reaches back no further than the start can be written. */
  lemma SomeWritten(t: Token, before: seq<nat>) returns (after: seq<nat>)
    requires t.Copy? ==> t.distance <= |before|
    ensures Writes(t, before, after)
  {
    match t
    case Literal(b) => after := before + [b];
    case Copy(n, d) =>
      if d == 0 {
        after := before + seq(n, _ => 0);
      } else {
        after := Repeated(before, n, d);
        WritesIsRepeated(before, n, d, after);
      }
  }

  /** However the tokens ts have been written, the ones that follow need no more room. */
  lemma RestFits(ts: seq<Token>, us: seq<Token>, all: seq<Token>, mid: seq<nat>, after: seq<nat>) returns (m: seq<nat>)
    requires Expands(ts, [], mid) && ts + us <= all && Expands(all, [], after)
    ensures Expands(us, mid, m) && |m| <= |after|
  {
    var most := ExpandsPrefix(ts + us, all, [], after);
    var mid' := ExpandsSplit(ts, us, [], most);
    ExpandsSize(ts, [], mid);
    ExpandsSize(ts, [], mid');
    m := ExpandsElsewhere(us, mid', most, mid);
  }

  // ----- the reference expansion -----

  /** No copy among the tokens reaches back further than the start, when they are written after n bytes. */
  predicate Inside(ts: seq<Token>, n: nat) {
    ts != [] ==>
      var t, rest := ts[|ts| - 1], ts[..|ts| - 1];
      Inside(rest, n) && (t.Copy? ==> t.distance <= n + Size(rest))
  }

  /** Copies bytes that nothing has been written to. */
  predicate FromNowhere(t: Token) {
    t.Copy? && t.length > 0 && t.distance == 0
  }

  /** Tokens with one meaning, after n bytes. */
  predicate Definite(ts: seq<Token>, n: nat) {
    Inside(ts, n) && forall t :: t in ts ==> !FromNowhere(t)
  }

  /** One byte at a time: each is the one at distance d before it. */
  function Repeated(before: seq<nat>, n: nat, d: nat): (r: seq<nat>)
    requires 1 <= d <= |before|
    ensures |r| == |before| + n
  {
    if n == 0 then before
    else
      var r := Repeated(before, n - 1, d);
      r + [r[|r| - d]]
  }

  predicate Reaches(t: Token, n: nat) {
    (t.Copy? ==> t.distance <= n) && !FromNowhere(t)
  }

  function Written(t: Token, before: seq<nat>): (r: seq<nat>)
    requires Reaches(t, |before|)
    ensures |r| == |before| + Length(t)
  {
    match t
    case Literal(b) => before + [b]
    case Copy(n, d) => if n == 0 then before else Repeated(before, n, d)
  }

  function Expansion(ts: seq<Token>, before: seq<nat>): (r: seq<nat>)
    requires Definite(ts, |before|)
    ensures |r| == |before| + Size(ts)
  {
    if ts == [] then before else Written(ts[|ts| - 1], Expansion(ts[..|ts| - 1], before))
  }

  lemma {:induction false} WritesIsRepeated(before: seq<nat>, n: nat, d: nat, after: seq<nat>)
    requires 1 <= d <= |before|
    ensures Writes(Copy(n, d), before, after) <==> after == Repeated(before, n, d)
  {
    if n > 0 {
      var r := Repeated(before, n - 1, d);
      WritesIsRepeated(before, n - 1, d, r);
      if Writes(Copy(n, d), before, after) {
        var m := after[..|after| - 1];
        WritesIsRepeated(before, n - 1, d, m);
        assert after == m + [after[|after| - 1]];
      }
    }
  }

  lemma WritesIsWritten(t: Token, before: seq<nat>, after: seq<nat>)
    requires Reaches(t, |before|)
    ensures Writes(t, before, after) <==> after == Written(t, before)
  {
    if t.Copy? && t.length > 0 { WritesIsRepeated(before, t.length, t.distance, after); }
  }

  /** Definite tokens write their expansion and nothing else. */
  lemma {:induction false} ExpandsIsExpansion(ts: seq<Token>, before: seq<nat>, after: seq<nat>)
    requires Definite(ts, |before|)
    ensures Expands(ts, before, after) <==> after == Expansion(ts, before)
  {
    if ts != [] {
      var t, rest := ts[|ts| - 1], ts[..|ts| - 1];
      var r := Expansion(rest, before);
      WritesIsWritten(t, r, after);
      if Expands(ts, before, after) {
        ExpandsIsExpansion(rest, before, after[..|after| - Length(t)]);
      }
      if after == Written(t, r) {
        ExpandsIsExpansion(rest, before, r);
        ExpandsNext(rest, t, before, r, after);
        assert rest + [t] == ts;
      }
    }
  }

  // ----- tokens without one meaning -----

  lemma {:induction false} ExpandsInside(ts: seq<Token>, before: seq<nat>, after: seq<nat>)
    requires Expands(ts, before, after)
    ensures Inside(ts, |before|)
  {
    if ts != [] {
      var rest, mid := ts[..|ts| - 1], after[..|after| - Length(ts[|ts| - 1])];
      ExpandsInside(rest, before, mid);
      ExpandsSize(rest, before, mid);
    }
  }

  lemma {:induction false} SomeExpansion(ts: seq<Token>, before: seq<nat>) returns (after: seq<nat>)
    requires Inside(ts, |before|)
    ensures Expands(ts, before, after)
  {
    if ts == [] {
      after := before;
    } else {
      var t, rest := ts[|ts| - 1], ts[..|ts| - 1];
      var mid := SomeExpansion(rest, before);
      after := OneMore(rest, t, before, mid);
      assert rest + [t] == ts;
    }
  }

  lemma OneMore(ts: seq<Token>, t: Token, before: seq<nat>, mid: seq<nat>) returns (after: seq<nat>)
    requires Expands(ts, before, mid) && (t.Copy? ==> t.distance <= |before| + Size(ts))
    ensures Expands(ts + [t], before, after) && |after| == |mid| + Length(t) && mid <= after
  {
    ExpandsSize(ts, before, mid);
    after := SomeWritten(t, mid);
    WritesLength(t, mid, after);
    ExpandsNext(ts, t, before, mid, after);
  }

  /** What a copy from distance zero leaves is any bytes at all. */
  lemma AnyBytes(ts: seq<Token>, n: nat, before: seq<nat>, mid: seq<nat>, bytes: seq<nat>)
    requires Expands(ts, before, mid) && |bytes| == n
    ensures Expands(ts + [Copy(n, 0)], before, mid + bytes)
  {
    ExpandsNext(ts, Copy(n, 0), before, mid, mid + bytes);
  }

  /** Tokens of which one copies from distance zero can leave different bytes. */
  lemma {:induction false} TwoExpansions(ts: seq<Token>, before: seq<nat>) returns (r: seq<nat>, r': seq<nat>)
    requires Inside(ts, |before|) && exists t :: t in ts && FromNowhere(t)
    ensures Expands(ts, before, r) && Expands(ts, before, r') && r != r' && |r| == |r'|
  {
    var t, rest := ts[|ts| - 1], ts[..|ts| - 1];
    assert rest + [t] == ts;
    if FromNowhere(t) {
      var mid := SomeExpansion(rest, before);
      var zeros, ones := seq(t.length, _ => 0), seq(t.length, _ => 1);
      AnyBytes(rest, t.length, before, mid, zeros);
      AnyBytes(rest, t.length, before, mid, ones);
      r, r' := mid + zeros, mid + ones;
      assert r[|mid|] == 0 && r'[|mid|] == 1;
    } else {
      var u :| u in ts && FromNowhere(u);
      assert u in rest;
      var m, m' := TwoExpansions(rest, before);
      r := OneMore(rest, t, before, m);
      r' := OneMore(rest, t, before, m');
      assert m == r[..|m|] && m' == r'[..|m|];
    }
  }

  /** The tokens can only leave r. */
  ghost predicate Only(ts: seq<Token>, before: seq<nat>, r: seq<nat>) {
    Expands(ts, before, r) && forall r' :: Expands(ts, before, r') ==> r' == r
  }

  lemma DefiniteOnly(ts: seq<Token>, before: seq<nat>)
    requires Definite(ts, |before|)
    ensures Only(ts, before, Expansion(ts, before))
  {
    forall r ensures Expands(ts, before, r) <==> r == Expansion(ts, before) { ExpandsIsExpansion(ts, before, r); }
  }

  lemma OnlyDefinite(ts: seq<Token>, before: seq<nat>, r: seq<nat>)
    requires Only(ts, before, r)
    ensures Definite(ts, |before|)
  {
    ExpandsInside(ts, before, r);
    if t :| t in ts && FromNowhere(t) {
      var a, b := TwoExpansions(ts, before);
    }
  }

  /** What tokens write is determined exactly if none reaches back further than the start, and none copies anything
      from distance zero. */
  lemma OneOutcome(ts: seq<Token>, before: seq<nat>)
    ensures Definite(ts, |before|) <==> exists r :: Only(ts, before, r)
  {
    if Definite(ts, |before|) { DefiniteOnly(ts, before); }
    if r :| Only(ts, before, r) { OnlyDefinite(ts, before, r); }
  }

  // ----- one symbol, or a length and a distance -----

  /** Symbol 257 + s and its extra bits mean the lengths from LengthBase(s) on.  The ranges follow
      one another, but for the last, which overlaps; symbols 286 and 287 are no lengths of the
      format and mean zero here. */
  function LengthExtra(s: nat): (r: nat)
    ensures r <= 5
  {
    if s < 8 || s >= 28 then 0 else s / 4 - 1
  }

  function LengthBase(s: nat): nat {
    if s == 0 then 3 else if s == 28 then 258 else if s > 28 then 0
    else LengthBase(s - 1) + Pow2(LengthExtra(s - 1))
  }

  /** Likewise for distances; symbols 30 and 31 mean zero here. */
  function DistanceExtra(s: nat): (r: nat)
    ensures r <= 13
  {
    if s < 4 || s >= 30 then 0 else s / 2 - 1
  }

  function DistanceBase(s: nat): nat {
    if s == 0 then 1 else if s >= 30 then 0
    else DistanceBase(s - 1) + Pow2(DistanceExtra(s - 1))
  }

  const LENGTH_BASE: seq<nat> := [
    3, 4, 5, 6, 7, 8, 9, 10, 11, 13, 15, 17, 19, 23, 27, 31, 35, 43, 51, 59, 67, 83, 99, 115, 131, 163, 195, 227,
      258, 0, 0]

  const LENGTH_EXTRA: seq<nat> := [
    0, 0, 0, 0, 0, 0, 0, 0, 1, 1, 1, 1, 2, 2, 2, 2, 3, 3, 3, 3, 4, 4, 4, 4, 5, 5, 5, 5, 0, 0, 0]

  const DISTANCE_BASE: seq<nat> := [
    1, 2, 3, 4, 5, 7, 9, 13, 17, 25, 33, 49, 65, 97, 129, 193, 257, 385, 513, 769, 1025, 1537, 2049, 3073, 4097, 6145,
    8193, 12289, 16385, 24577, 0, 0]

  const DISTANCE_EXTRA: seq<nat> := [
    0, 0, 0, 0, 1, 1, 2, 2, 3, 3, 4, 4, 5, 5, 6, 6, 7, 7, 8, 8, 9, 9, 10, 10, 11, 11, 12, 12, 13, 13, 0, 0]

  lemma LengthTable(s: nat)
    requires s < 31
    ensures LENGTH_BASE[s] == LengthBase(s) && LENGTH_EXTRA[s] == LengthExtra(s)
  {
    LengthValues();
    match s
    case 0 => case 1 => case 2 => case 3 => case 4 => case 5 => case 6 => case 7 => case 8 => case 9 => case 10
    => case 11 => case 12 => case 13 => case 14 => case 15 => case 16 => case 17 => case 18 => case 19 => case
    20 => case 21 => case 22 => case 23 => case 24 => case 25 => case 26 => case 27 => case 28 => case 29 =>
    case 30 =>
  }

  lemma LengthValues()
    ensures
      LengthBase(0) == 3 && LengthBase(1) == 4 && LengthBase(2) == 5 && LengthBase(3) == 6 && LengthBase(4) == 7
      && LengthBase(5) == 8 && LengthBase(6) == 9 && LengthBase(7) == 10 && LengthBase(8) == 11 && LengthBase(9)
      == 13 && LengthBase(10) == 15 && LengthBase(11) == 17 && LengthBase(12) == 19 && LengthBase(13) == 23 &&
      LengthBase(14) == 27 && LengthBase(15) == 31 && LengthBase(16) == 35 && LengthBase(17) == 43 &&
      LengthBase(18) == 51 && LengthBase(19) == 59 && LengthBase(20) == 67 && LengthBase(21) == 83 &&
      LengthBase(22) == 99 && LengthBase(23) == 115 && LengthBase(24) == 131 && LengthBase(25) == 163 &&
      LengthBase(26) == 195 && LengthBase(27) == 227 && LengthBase(28) == 258 && LengthBase(29) == 0 &&
      LengthBase(30) == 0
  {}

  lemma DistanceTable(s: nat)
    requires s < 32
    ensures DISTANCE_BASE[s] == DistanceBase(s) && DISTANCE_EXTRA[s] == DistanceExtra(s)
  {
    DistanceValues();
    match s
    case 0 => case 1 => case 2 => case 3 => case 4 => case 5 => case 6 => case 7 => case 8 => case 9 => case 10
    => case 11 => case 12 => case 13 => case 14 => case 15 => case 16 => case 17 => case 18 => case 19 => case
    20 => case 21 => case 22 => case 23 => case 24 => case 25 => case 26 => case 27 => case 28 => case 29 =>
    case 30 => case 31 =>
  }

  lemma DistanceValues()
    ensures
      DistanceBase(0) == 1 && DistanceBase(1) == 2 && DistanceBase(2) == 3 && DistanceBase(3) == 4 &&
      DistanceBase(4) == 5 && DistanceBase(5) == 7 && DistanceBase(6) == 9 && DistanceBase(7) == 13 &&
      DistanceBase(8) == 17 && DistanceBase(9) == 25 && DistanceBase(10) == 33 && DistanceBase(11) == 49 &&
      DistanceBase(12) == 65 && DistanceBase(13) == 97 && DistanceBase(14) == 129 && DistanceBase(15) == 193 &&
      DistanceBase(16) == 257 && DistanceBase(17) == 385 && DistanceBase(18) == 513 && DistanceBase(19) == 769
      && DistanceBase(20) == 1025 && DistanceBase(21) == 1537 && DistanceBase(22) == 2049 && DistanceBase(23) ==
      3073 && DistanceBase(24) == 4097 && DistanceBase(25) == 6145 && DistanceBase(26) == 8193 &&
      DistanceBase(27) == 12289 && DistanceBase(28) == 16385 && DistanceBase(29) == 24577 && DistanceBase(30) ==
      0 && DistanceBase(31) == 0
  {}

  /** The tables say the same. */
  method LookupLength(s: nat) returns (base: nat, extra: nat)
    requires s < 31
    ensures base == LengthBase(s) && extra == LengthExtra(s)
  {
    LengthTable(s);
    return LENGTH_BASE[s], LENGTH_EXTRA[s];
  }

  method LookupDistance(s: nat) returns (base: nat, extra: nat)
    requires s < 32
    ensures base == DistanceBase(s) && extra == DistanceExtra(s)
  {
    DistanceTable(s);
    return DISTANCE_BASE[s], DISTANCE_EXTRA[s];
  }

  ghost predicate LengthCode(z: Sizes) {
    Bounded(z) && |z| <= 288
  }

  ghost predicate DistanceCode(z: Sizes) {
    Bounded(z) && |z| <= 32
  }

  datatype Step = Bad | Stop(to: nat) | Next(token: Token, to: nat)

  /** What the stream v, which goes on from position c, starts with: a token, the end of the
      block, or neither. */
  ghost function Read(lit: Sizes, dst: Sizes, v: nat, c: nat): (r: Step)
    requires LengthCode(lit) && DistanceCode(dst)
    ensures !r.Bad? ==> r.to > c
  {
    var s := Decoded(lit, v);
    if s < 0 then Bad
    else if s < 256 then Next(Literal(s), c + lit[s])
    else if s == 256 then Stop(c + lit[s])
    else ReadLength(dst, Shr(v, lit[s]), s, c + lit[s])
  }

  ghost function ReadLength(dst: Sizes, v: nat, s: nat, c: nat): (r: Step)
    requires DistanceCode(dst) && 257 <= s < 288
    ensures !r.Bad? ==> r.to > c
  {
    var extra := LengthExtra(s - 257);
    ReadDistance(dst, Shr(v, extra), LengthBase(s - 257) + Low(v, extra), c + extra)
  }

  ghost function ReadDistance(dst: Sizes, v: nat, length: nat, c: nat): (r: Step)
    requires DistanceCode(dst)
    ensures !r.Bad? ==> r.to > c
  {
    var s := Decoded(dst, v);
    if s < 0 then Bad
    else
      var extra := DistanceExtra(s);
      Next(Copy(length, DistanceBase(s) + Low(Shr(v, dst[s]), extra)), c + dst[s] + extra)
  }

  ghost function ReadAt(lit: Sizes, dst: Sizes, input: seq<nat>, c: nat): (r: Step)
    requires LengthCode(lit) && DistanceCode(dst)
    ensures !r.Bad? ==> r.to > c
  {
    Read(lit, dst, StreamAt(input, c), c)
  }

  // ----- a block of tokens -----

  ghost function TokenReader(lit: Sizes, dst: Sizes, input: seq<nat>): Reader<Token>
    requires LengthCode(lit) && DistanceCode(dst)
  {
    (c: nat, t: Token) =>
      var step := ReadAt(lit, dst, input, c);
      if step.Next? && step.token == t then step.to else -1
  }

  ghost function BlockStops(lit: Sizes, dst: Sizes, input: seq<nat>): nat -> bool
    requires LengthCode(lit) && DistanceCode(dst)
  {
    (c: nat) => ReadAt(lit, dst, input, c).Stop?
  }

  /** The position after the tokens that start at position c, or -1 if they do not stand there. */
  ghost function TokensEnd(lit: Sizes, dst: Sizes, input: seq<nat>, c: nat, ts: seq<Token>): int
    requires LengthCode(lit) && DistanceCode(dst)
  {
    EndOf(TokenReader(lit, dst, input), BlockStops(lit, dst, input), c, ts)
  }

  /** The same for tokens followed by the end of the block. */
  ghost function BlockEnd(lit: Sizes, dst: Sizes, input: seq<nat>, c: nat, ts: seq<Token>): (r: int)
    requires LengthCode(lit) && DistanceCode(dst)
    ensures r == -1 || r > c
  {
    var u := TokensEnd(lit, dst, input, c, ts);
    if u < 0 || !ReadAt(lit, dst, input, u).Stop? then -1
    else
      EndOfGrows(TokenReader(lit, dst, input), BlockStops(lit, dst, input), c, ts);
      ReadAt(lit, dst, input, u).to
  }

  lemma TokensNext(lit: Sizes, dst: Sizes, input: seq<nat>, c: nat, ts: seq<Token>, u: nat)
    requires LengthCode(lit) && DistanceCode(dst) && TokensEnd(lit, dst, input, c, ts) == u
    requires ReadAt(lit, dst, input, u).Next?
    ensures var step := ReadAt(lit, dst, input, u); TokensEnd(lit, dst, input, c, ts + [step.token]) == step.to
  {
    var step := ReadAt(lit, dst, input, u);
    EndOfNext(TokenReader(lit, dst, input), BlockStops(lit, dst, input), c, ts, step.token, u);
  }

  /** Whatever tokens have been read are the first ones of the block. */
  lemma ReadIsPrefix(lit: Sizes, dst: Sizes, input: seq<nat>, c: nat, ts: seq<Token>, us: seq<Token>, u: nat)
    requires LengthCode(lit) && DistanceCode(dst)
    requires TokensEnd(lit, dst, input, c, ts) == u && BlockEnd(lit, dst, input, c, us) >= 0
    ensures ts <= us && (ts == us || ReadAt(lit, dst, input, u).Next?)
  {
    var at, stops := TokenReader(lit, dst, input), BlockStops(lit, dst, input);
    if |ts| <= |us| {
      ShorterIsPrefix(at, stops, c, ts, us, u);
    } else {
      ShorterIsPrefix(at, stops, c, us, ts, TokensEnd(lit, dst, input, c, us));
    }
  }

  lemma BlockUnique(lit: Sizes, dst: Sizes, input: seq<nat>, c: nat, ts: seq<Token>, us: seq<Token>)
    requires LengthCode(lit) && DistanceCode(dst)
    requires BlockEnd(lit, dst, input, c, ts) >= 0 && BlockEnd(lit, dst, input, c, us) >= 0
    ensures ts == us
  {
    ReadIsPrefix(lit, dst, input, c, ts, us, TokensEnd(lit, dst, input, c, ts));
  }

  // ----- the code sizes of a dynamic block (section 3.2.7) -----

  // How wide the fields of the header are.
  const AGAIN_BITS := 2
  const ZEROS_BITS := 3
  const MANY_ZEROS_BITS := 7
  const COUNT_BITS := 5
  const SIZES_BITS := 4
  const SIZE_BITS := 3

  datatype SizeOp = One(size: nat) | Again(times: nat) | Zeros(times: nat)

  datatype OpStep = BadOp | Op(op: SizeOp, to: nat)

  /** What stands at position c: a size, or a run of the size before it or of zeros. */
  ghost function ReadOp(cl: Sizes, input: seq<nat>, c: nat): (r: OpStep)
    requires |cl| == 19
    ensures r.Op? && r.op.One? ==> r.op.size <= MAX_SIZE
    ensures r.Op? && !r.op.One? ==> r.op.times > 0
    ensures r.Op? ==> r.to > c
  {
    var s := Decoded(cl, StreamAt(input, c));
    if s < 0 then BadOp
    else
      var c' := c + cl[s];
      if s < 16 then Op(One(s), c')
      else if s == 16 then Op(Again(Low(StreamAt(input, c'), AGAIN_BITS) + 3), c' + AGAIN_BITS)
      else if s == 17 then Op(Zeros(Low(StreamAt(input, c'), ZEROS_BITS) + 3), c' + ZEROS_BITS)
      else Op(Zeros(Low(StreamAt(input, c'), MANY_ZEROS_BITS) + 11), c' + MANY_ZEROS_BITS)
  }

  /** The sizes so far, and the ones that the operation adds; nothing comes before the first. */
  function Extended(op: SizeOp, sizes: Sizes): Option<Sizes> {
    match op
    case One(s) => Some(sizes + [s])
    case Again(n) => if sizes == [] then None else Some(sizes + seq(n, _ => sizes[|sizes| - 1]))
    case Zeros(n) => Some(sizes + seq(n, _ => 0))
  }

  datatype SizesRead = BadSizes | SizesRead(sizes: Sizes, to: nat)

  ghost function ReadSizes(cl: Sizes, input: seq<nat>, c: nat, total: nat, sizes: Sizes): (r: SizesRead)
    requires |cl| == 19 && Bounded(sizes) && |sizes| <= total
    ensures r.SizesRead? ==> |r.sizes| == total && Bounded(r.sizes) && r.to >= c
    decreases total - |sizes|
  {
    if |sizes| == total then SizesRead(sizes, c)
    else
      var step := ReadOp(cl, input, c);
      if step.BadOp? then BadSizes
      else
        var next := Extended(step.op, sizes);
        if next.None? || |next.value| > total then BadSizes
        else ReadSizes(cl, input, step.to, total, next.value)
  }

  const LENGTH_DEZIGZAG: seq<nat> := [16, 17, 18, 0, 8, 7, 9, 6, 10, 5, 11, 4, 12, 3, 13, 2, 14, 1, 15]

  lemma DezigzagInRange(i: nat)
    requires i < 19
    ensures LENGTH_DEZIGZAG[i] < 19
  {}

  /** The sizes of the code for sizes: three bits each, in an order of their own. */
  ghost function CodeSizes(input: seq<nat>, c: nat, n: nat): (cl: Sizes)
    requires n <= 19
    ensures |cl| == 19 && Bounded(cl)
  {
    if n == 0 then seq(19, _ => 0)
    else
      DezigzagInRange(n - 1);
      CodeSizes(input, c, n - 1)[LENGTH_DEZIGZAG[n - 1] := Low(StreamAt(input, c + 3 * (n - 1)), SIZE_BITS)]
  }

  datatype Header = BadHeader | Header(lit: Sizes, dst: Sizes, to: nat)

  /** How many literal and length codes the header announces. */
  ghost function LiteralCodes(input: seq<nat>, c: nat): (n: nat)
    ensures 257 <= n <= 288
  {
    Pow2Values();
    Low(StreamAt(input, c), COUNT_BITS) + 257
  }

  ghost function DistanceCodes(input: seq<nat>, c: nat): (n: nat)
    ensures 1 <= n <= 32
  {
    Pow2Values();
    Low(StreamAt(input, c + 5), COUNT_BITS) + 1
  }

  /** How many sizes of the code for sizes the header lists. */
  ghost function SizeCodes(input: seq<nat>, c: nat): (n: nat)
    ensures 4 <= n <= 19
  {
    Pow2Values();
    Low(StreamAt(input, c + 10), SIZES_BITS) + 4
  }

  ghost function ListedSizes(input: seq<nat>, c: nat, hclen: nat, total: nat): (r: SizesRead)
    requires hclen <= 19
    ensures r.SizesRead? ==> |r.sizes| == total && Bounded(r.sizes) && r.to >= c
  {
    var cl := CodeSizes(input, c, hclen);
    if Kraft(cl) then ReadSizes(cl, input, c + 3 * hclen, total, []) else BadSizes
  }

  ghost function HeaderSizes(input: seq<nat>, c: nat): (r: SizesRead)
    ensures r.SizesRead? ==>
      |r.sizes| == LiteralCodes(input, c) + DistanceCodes(input, c) && Bounded(r.sizes) && r.to >= c
  {
    ListedSizes(input, c + 14, SizeCodes(input, c), LiteralCodes(input, c) + DistanceCodes(input, c))
  }

  ghost function ReadHeader(input: seq<nat>, c: nat): (r: Header)
    ensures r.Header? ==> LengthCode(r.lit) && DistanceCode(r.dst) && Kraft(r.lit) && Kraft(r.dst) && r.to >= c
  {
    var r, hlit := HeaderSizes(input, c), LiteralCodes(input, c);
    if r.BadSizes? || !Kraft(r.sizes[..hlit]) || !Kraft(r.sizes[hlit..]) then BadHeader
    else Header(r.sizes[..hlit], r.sizes[hlit..], r.to)
  }
}
