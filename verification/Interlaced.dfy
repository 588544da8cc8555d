/** Putting the passes of an interlaced image in place. */
module Interlaced {
  import opened Bits
  import opened PngFilter
  import opened PngImage
  import opened Adam7

  // ----- pixels in memory -----

  /** Where the samples of the pixel in column c of line l start. */
  function Spot(c: nat, l: nat, w: nat, outN: nat): nat {
    (l * w + c) * outN
  }

  lemma {:induction false} MulMonotone(a: nat, b: nat, n: nat)
    requires a <= b
    ensures a * n <= b * n
    decreases b
  {
    if a < b { MulMonotone(a, b - 1, n); }
  }

  lemma MulNext(k: nat, n: nat)
    ensures (k + 1) * n == k * n + n
  {}

  /** A pixel further on starts where the other one ends, or later. */
  lemma SpotsFollow(k: nat, k': nat, n: nat)
    requires k < k'
    ensures k * n + n <= k' * n
  {
    MulNext(k, n);
    MulMonotone(k + 1, k', n);
  }

  lemma PixelsDiffer(c: nat, l: nat, c': nat, l': nat, w: nat)
    requires c < w && c' < w && l < l'
    ensures l * w + c < l' * w + c'
  {
    SpotsFollow(l, l', w);
  }

  lemma SpotInside(c: nat, l: nat, w: nat, h: nat, outN: nat)
    requires c < w && l < h
    ensures Spot(c, l, w, outN) + outN <= w * h * outN
  {
    PixelsDiffer(c, l, 0, h, w);
    assert h * w + 0 == w * h;
    SpotsFollow(l * w + c, w * h, outN);
  }

  /** Different pixels do not share memory. */
  lemma SpotsApart(c: nat, l: nat, c': nat, l': nat, w: nat, outN: nat)
    requires c < w && c' < w && (c != c' || l != l')
    ensures var s, s' := Spot(c, l, w, outN), Spot(c', l', w, outN); s + outN <= s' || s' + outN <= s
  {
    var k, k' := l * w + c, l' * w + c';
    if l < l' { PixelsDiffer(c, l, c', l', w); }
    if l' < l { PixelsDiffer(c', l', c, l, w); }
    if k < k' { SpotsFollow(k, k', outN); } else { SpotsFollow(k', k, outN); }
  }

  /** A pixel of an image, with its alpha sample if it has one. */
  function PixelOf(rows: seq<seq<nat>>, n: nat, outN: nat, c: nat, l: nat): seq<nat> {
    if l < |rows| && Samples(c, n) + n <= |rows[l]| then
      rows[l][Samples(c, n)..Samples(c, n) + n] + if outN == n then [] else [255]
    else []
  }

  lemma SliceOfFirst(a: seq<nat>, b: seq<nat>, u: nat, n: nat)
    requires u + n <= |a|
    ensures (a + b)[u..u + n] == a[u..u + n]
  {}

  lemma SliceOfSecond(a: seq<nat>, b: seq<nat>, u: nat, v: nat, n: nat)
    requires u == |a| + v && v + n <= |b|
    ensures (a + b)[u..u + n] == b[v..v + n]
  {}

  lemma SliceOneMore(s: seq<nat>, u: nat, n: nat, outN: nat)
    requires outN == n + 1 && u + outN <= |s|
    ensures s[u..u + outN] == s[u..u + n] + [s[u + n]]
  {}

  lemma LayoutAt(row: seq<nat>, n: nat, outN: nat, x: nat, c: nat, m: nat, u: nat)
    requires n > 0 && (outN == n || outN == n + 1) && |row| == Samples(x, n) && c < x && m == Samples(c, n)
      && u == Samples(c, outN)
    ensures m + n <= |row| && u + outN <= |Layout(row, n, outN)|
    ensures Layout(row, n, outN)[u..u + outN] == row[m..m + n] + if outN == n then [] else [255]
  {
    SamplesFewer(c + 1, x, n);
    if outN != n {
      AlphaAt(row, n, c, x, m, u);
      SliceOneMore(WithAlpha(row, n), u, n, outN);
    }
  }

  lemma LaidLast(top: seq<seq<nat>>, last: seq<nat>, rows: seq<seq<nat>>, n: nat, outN: nat, x: nat, stride: nat,
      c: nat, v: nat, u: nat)
    requires n > 0 && (outN == n || outN == n + 1) && Image(top, Samples(x, n)) && |last| == Samples(x, n) && c < x
      && rows == top + [last]
    requires stride == Samples(x, outN) && v == Samples(c, outN) && u == Samples(|top|, stride) + v
    ensures var all := Laid(top, n, outN) + Layout(last, n, outN);
      u + outN <= |all| && all[u..u + outN] == PixelOf(rows, n, outN, c, |top|)
  {
    LaidLength(top, n, outN, x);
    LayoutAt(last, n, outN, x, c, Samples(c, n), v);
    SliceOfSecond(Laid(top, n, outN), Layout(last, n, outN), u, v, outN);
  }

  lemma PixelOfTop(top: seq<seq<nat>>, last: seq<nat>, rows: seq<seq<nat>>, n: nat, outN: nat, c: nat, l: nat)
    requires rows == top + [last] && l < |top|
    ensures PixelOf(rows, n, outN, c, l) == PixelOf(top, n, outN, c, l)
  {
    assert rows[l] == top[l];
  }

  /** Each pixel is found in the memory where it belongs. */
  lemma {:induction false} LaidAt(rows: seq<seq<nat>>, n: nat, outN: nat, x: nat, stride: nat, c: nat, l: nat,
      v: nat, u: nat)
    requires n > 0 && (outN == n || outN == n + 1) && Image(rows, Samples(x, n)) && c < x && l < |rows|
    requires stride == Samples(x, outN) && v == Samples(c, outN) && u == Samples(l, stride) + v
    ensures u + outN <= |Laid(rows, n, outN)| && Laid(rows, n, outN)[u..u + outN] == PixelOf(rows, n, outN, c, l)
    decreases |rows|
  {
    var top, last := rows[..|rows| - 1], rows[|rows| - 1];
    assert rows == top + [last];
    if l < |top| {
      LaidAt(top, n, outN, x, stride, c, l, v, u);
      SliceOfFirst(Laid(top, n, outN), Layout(last, n, outN), u, outN);
      PixelOfTop(top, last, rows, n, outN, c, l);
    } else {
      LaidLast(top, last, rows, n, outN, x, stride, c, v, u);
    }
  }

  lemma SpotIsSamples(c: nat, l: nat, x: nat, outN: nat)
    ensures Spot(c, l, x, outN) == Samples(l, Samples(x, outN)) + Samples(c, outN)
  {
    SamplesIsProduct(c, outN);
    SamplesIsProduct(x, outN);
    SamplesIsProduct(l, x * outN);
    MulDistributes(l * x, c, outN);
    MulAssociates(l, x, outN);
  }

  // ----- one pixel -----

  /** The pixels that have been put in place. */
  ghost predicate InPlace(final: array<nat>, w: nat, h: nat, outN: nat, want: (nat, nat) -> seq<nat>,
      done: set<(nat, nat)>)
    reads final
  {
    final.Length == w * h * outN && forall q :: q in done ==>
      q.0 < w && q.1 < h && |want(q.0, q.1)| == outN && Shows(final, Spot(q.0, q.1, w, outN), want(q.0, q.1))
  }

  method CopySamples(final: array<nat>, out: array<nat>, to: nat, from: nat, outN: nat, ghost val: seq<nat>)
    requires final != out && to + outN <= final.Length && |val| == outN && Shows(out, from, val)
    modifies final
    ensures Shows(final, to, val)
    ensures forall i :: 0 <= i < final.Length && !(to <= i < to + outN) ==> final[i] == old(final[i])
  {
    for k := 0 to outN
      invariant Shows(final, to, val[..k])
      invariant forall i :: 0 <= i < final.Length && !(to <= i < to + outN) ==> final[i] == old(final[i])
    {
      assert val[..k + 1] == val[..k] + [val[k]];
      final[to + k] := out[from + k];
    }
    assert val[..outN] == val;
  }

  /** Copies one pixel. */
  method PlacePixel(final: array<nat>, out: array<nat>, c: nat, l: nat, from: nat, w: nat, h: nat, outN: nat,
      ghost want: (nat, nat) -> seq<nat>, ghost done: set<(nat, nat)>)
    requires final != out && c < w && l < h && InPlace(final, w, h, outN, want, done)
    requires |want(c, l)| == outN && Shows(out, from, want(c, l))
    modifies final
    ensures InPlace(final, w, h, outN, want, done + {(c, l)})
  {
    SpotInside(c, l, w, h, outN);
    CopySamples(final, out, Spot(c, l, w, outN), from, outN, want(c, l));
    forall q | q in done && q != (c, l) ensures Shows(final, Spot(q.0, q.1, w, outN), want(q.0, q.1)) {
      SpotsApart(c, l, q.0, q.1, w, outN);
      var at, val := Spot(q.0, q.1, w, outN), want(q.0, q.1);
      assert old(Shows(final, at, val));
      forall k | 0 <= k < |val| ensures final[at + k] == val[k] {
        assert old(final[at + k]) == val[k];
      }
    }
  }

  // ----- one pass -----

  /** Rows `0` to `j - 1` of pass p, and the first i pixels of row j, are in place. */
  ghost predicate Covered(p: nat, w: nat, j: nat, i: nat, done: set<(nat, nat)>)
    requires p < 7
  {
    && (forall i', j' :: 0 <= j' < j && 0 <= i' < PassWidth(p, w) ==> (ColumnOf(p, i'), LineOf(p, j')) in done)
    && forall i' :: 0 <= i' < i ==> (ColumnOf(p, i'), LineOf(p, j)) in done
  }

  /** The pass image shows the pixels wanted. */
  ghost predicate PassShows(out: array<nat>, p: nat, x: nat, y: nat, outN: nat, want: (nat, nat) -> seq<nat>)
    requires p < 7
    reads out
  {
    forall i, j :: 0 <= i < x && 0 <= j < y ==>
      |want(ColumnOf(p, i), LineOf(p, j))| == outN
        && Shows(out, Spot(i, j, x, outN), want(ColumnOf(p, i), LineOf(p, j)))
  }

  /** Copies the pixels of a pass to where they belong. */
  method PlacePass(final: array<nat>, out: array<nat>, p: nat, w: nat, h: nat, outN: nat,
      ghost want: (nat, nat) -> seq<nat>,
      ghost done0: set<(nat, nat)>) returns (ghost done: set<(nat, nat)>)
    requires final != out && p < 7 && InPlace(final, w, h, outN, want, done0)
    requires PassShows(out, p, PassWidth(p, w), PassHeight(p, h), outN, want)
    modifies final
    ensures InPlace(final, w, h, outN, want, done) && done0 <= done && Covered(p, w, PassHeight(p, h), 0, done)
  {
    var x, y := PassWidth(p, w), PassHeight(p, h);
    done := done0;
    for j := 0 to y
      invariant InPlace(final, w, h, outN, want, done) && done0 <= done && Covered(p, w, j, 0, done)
    {
      for i := 0 to x
        invariant InPlace(final, w, h, outN, want, done) && done0 <= done && Covered(p, w, j, i, done)
      {
        var c, l := ColumnOf(p, i), LineOf(p, j);
        ColumnInside(p, i, w);
        LineInside(p, j, h);
        PlacePixel(final, out, c, l, Spot(i, j, x, outN), w, h, outN, want, done);
        done := done + {(c, l)};
      }
    }
  }

  // ----- the image -----

  const PASSES: nat := 7

  /** Whether pass p has any pixels. */
  predicate Occurs(p: nat, w: nat, h: nat)
    requires p < 7
  {
    PassWidth(p, w) > 0 && PassHeight(p, h) > 0
  }

  /** How many bytes a pass takes, and where it starts. */
  function PassBytes(p: nat, w: nat, h: nat, n: nat): nat
    requires p < 7
  {
    if Occurs(p, w, h) then RowStart(PassWidth(p, w) * n, PassHeight(p, h)) else 0
  }

  function PassStart(p: nat, w: nat, h: nat, n: nat): nat
    requires p <= 7
  {
    if p == 0 then 0 else PassStart(p - 1, w, h, n) + PassBytes(p - 1, w, h, n)
  }

  /** The rows of pass p. */
  function PassDecoded(raw: seq<nat>, p: nat, w: nat, h: nat, n: nat): Decoding
    requires p < 7 && n > 0
  {
    if PassStart(p, w, h, n) > |raw| then NotAnImage
    else Decoded(n, PassWidth(p, w) * n, raw[PassStart(p, w, h, n)..], PassHeight(p, h))
  }

  /** The first p passes can be decoded. */
  ghost predicate Decodable(raw: seq<nat>, p: nat, w: nat, h: nat, n: nat)
    requires p <= 7 && n > 0
  {
    forall q: nat :: q < p && Occurs(q, w, h) ==> PassDecoded(raw, q, w, h, n).Rows?
  }

  /** The pixel that an interlaced image has in column c of line l. */
  ghost function Wanted(raw: seq<nat>, w: nat, h: nat, n: nat, outN: nat): (nat, nat) -> seq<nat>
    requires n > 0
  {
    (c: nat, l: nat) =>
      var p := PassOf(c, l);
      var rows := PassDecoded(raw, p, w, h, n);
      if rows.Rows? then PixelOf(rows.rows, n, outN, c / XSPC[p], l / YSPC[p]) else []
  }

  lemma PixelLength(rows: seq<seq<nat>>, n: nat, outN: nat, x: nat, c: nat, l: nat)
    requires n > 0 && (outN == n || outN == n + 1) && Image(rows, Samples(x, n)) && c < x && l < |rows|
    ensures |PixelOf(rows, n, outN, c, l)| == outN
  {
    SamplesFewer(c + 1, x, n);
  }

  lemma PlainPixel(out: array<nat>, rows: seq<seq<nat>>, w: nat, h: nat, n: nat, outN: nat, c: nat, l: nat)
    requires n > 0 && (outN == n || outN == n + 1) && Image(rows, w * n) && |rows| == h
      && out[..] == Laid(rows, n, outN)
    requires c < w && l < h
    ensures |PixelOf(rows, n, outN, c, l)| == outN && Shows(out, Spot(c, l, w, outN), PixelOf(rows, n, outN, c, l))
  {
    SamplesIsProduct(w, n);
    SpotIsSamples(c, l, w, outN);
    LaidAt(rows, n, outN, w, Samples(w, outN), c, l, Samples(c, outN), Spot(c, l, w, outN));
    PixelLength(rows, n, outN, w, c, l);
    SliceIsShown(out, Laid(rows, n, outN), Spot(c, l, w, outN), outN);
  }

  /** The pixels wanted of a pass are those of its rows. */
  lemma PassIsWanted(raw: seq<nat>, p: nat, w: nat, h: nat, n: nat, outN: nat, rows: seq<seq<nat>>, i: nat, j: nat)
    requires p < 7 && n > 0 && PassDecoded(raw, p, w, h, n) == Rows(rows)
    ensures Wanted(raw, w, h, n, outN)(ColumnOf(p, i), LineOf(p, j)) == PixelOf(rows, n, outN, i, j)
  {
    PassResidues(p, i, j);
    PlaceAgain(p, i, j);
  }

  /** A pass that has been decoded shows the pixels wanted of it. */
  lemma AllWanted(p: nat, x: nat, y: nat, n: nat, outN: nat, out: array<nat>, rows: seq<seq<nat>>,
      want: (nat, nat) -> seq<nat>)
    requires p < 7 && n > 0 && (outN == n || outN == n + 1) && Image(rows, x * n) && |rows| == y
    requires out[..] == Laid(rows, n, outN)
    requires forall i: nat, j: nat :: i < x && j < y ==>
      want(ColumnOf(p, i), LineOf(p, j)) == PixelOf(rows, n, outN, i, j)
    ensures PassShows(out, p, x, y, outN, want)
  {
    forall i: nat, j: nat | i < x && j < y
      ensures |want(ColumnOf(p, i), LineOf(p, j))| == outN
        && Shows(out, Spot(i, j, x, outN), want(ColumnOf(p, i), LineOf(p, j)))
    {
      PlainPixel(out, rows, x, y, n, outN, i, j);
    }
  }

  lemma PassWanted(raw: seq<nat>, p: nat, w: nat, h: nat, n: nat, outN: nat, out: array<nat>, rows: seq<seq<nat>>)
    requires p < 7 && n > 0 && (outN == n || outN == n + 1) && PassDecoded(raw, p, w, h, n) == Rows(rows)
    requires out[..] == Laid(rows, n, outN)
    ensures PassShows(out, p, PassWidth(p, w), PassHeight(p, h), outN, Wanted(raw, w, h, n, outN))
  {
    var want := Wanted(raw, w, h, n, outN);
    forall i: nat, j: nat | i < PassWidth(p, w) && j < PassHeight(p, h)
      ensures want(ColumnOf(p, i), LineOf(p, j)) == PixelOf(rows, n, outN, i, j)
    {
      PassIsWanted(raw, p, w, h, n, outN, rows, i, j);
    }
    AllWanted(p, PassWidth(p, w), PassHeight(p, h), n, outN, out, rows, want);
  }

  lemma SliceIsShown(out: array<nat>, all: seq<nat>, u: nat, n: nat)
    requires out[..] == all && u + n <= |all|
    ensures Shows(out, u, all[u..u + n])
  {
    var s := all[u..u + n];
    forall k | 0 <= k < n ensures out[u + k] == s[k] {
      assert out[..][u + k] == s[k];
    }
  }

  lemma PlaceAgain(p: nat, i: nat, j: nat)
    requires p < 7
    ensures ColumnOf(p, i) / XSPC[p] == i && LineOf(p, j) / YSPC[p] == j
  {
    DivideBack(i, XORIG[p], XSPC[p]);
    DivideBack(j, YORIG[p], YSPC[p]);
  }

  lemma DivideBack(i: nat, origin: nat, spacing: nat)
    requires origin < spacing
    ensures (i * spacing + origin) / spacing == i
  {
    DivideUnique(i * spacing + origin, i, origin, spacing);
  }

  /** Decodes pass p and puts its pixels in place, if it has any; `at` is where it starts. */
  method OnePass(final: array<nat>, raw: seq<nat>, at: nat, p: nat, w: nat, h: nat, n: nat, outN: nat,
      ghost want: (nat, nat) -> seq<nat>,
      ghost done0: set<(nat, nat)>) returns (ok: bool, ghost done: set<(nat, nat)>)
    requires p < 7 && n > 0 && (outN == n || outN == n + 1) && at == PassStart(p, w, h, n) <= |raw|
    requires want == Wanted(raw, w, h, n, outN) && InPlace(final, w, h, outN, want, done0)
    modifies final
    ensures ok == (Occurs(p, w, h) ==> PassDecoded(raw, p, w, h, n).Rows?)
    ensures ok ==> InPlace(final, w, h, outN, want, done) && done0 <= done && Covered(p, w, PassHeight(p, h), 0, done)
  {
    var x, y := PassWidth(p, w), PassHeight(p, h);
    done := done0;
    ok := true;
    if x > 0 && y > 0 {
      var out;
      ok, out := CreateImageRaw(raw[at..], x, y, n, outN);
      if ok {
        PassWanted(raw, p, w, h, n, outN, out, PassDecoded(raw, p, w, h, n).rows);
        done := PlacePass(final, out, p, w, h, outN, want, done0);
      }
    }
  }

  lemma {:induction false} PassFits(raw: seq<nat>, p: nat, w: nat, h: nat, n: nat)
    requires p <= 7 && n > 0 && Decodable(raw, p, w, h, n)
    ensures PassStart(p, w, h, n) <= |raw|
  {
    if p > 0 {
      PassFits(raw, p - 1, w, h, n);
      if Occurs(p - 1, w, h) {
        DecodedNeeds(n, PassWidth(p - 1, w) * n, raw[PassStart(p - 1, w, h, n)..], PassHeight(p - 1, h));
      }
    }
  }

  /** All the passes before p are in place. */
  ghost predicate PassesCovered(p: nat, w: nat, h: nat, done: set<(nat, nat)>)
    requires p <= 7
  {
    forall q: nat :: q < p ==> Covered(q, w, PassHeight(q, h), 0, done)
  }

  lemma CoveredAll(w: nat, h: nat, done: set<(nat, nat)>, c: nat, l: nat)
    requires PassesCovered(PASSES, w, h, done) && c < w && l < h
    ensures (c, l) in done
  {
    var i, j := InSomePass(c, l, w, h);
    assert Covered(PassOf(c, l), w, PassHeight(PassOf(c, l), h), 0, done);
  }

  /** The memory shows all pixels wanted. */
  ghost predicate AllShown(final: array<nat>, w: nat, h: nat, outN: nat, want: (nat, nat) -> seq<nat>)
    reads final
  {
    forall c: nat, l: nat :: c < w && l < h ==>
      |want(c, l)| == outN && Shows(final, Spot(c, l, w, outN), want(c, l))
  }

  lemma AllInPlace(final: array<nat>, w: nat, h: nat, outN: nat, want: (nat, nat) -> seq<nat>, done: set<(nat, nat)>)
    requires InPlace(final, w, h, outN, want, done) && PassesCovered(PASSES, w, h, done)
    ensures AllShown(final, w, h, outN, want)
  {
    forall c: nat, l: nat | c < w && l < h
      ensures |want(c, l)| == outN && Shows(final, Spot(c, l, w, outN), want(c, l))
    {
      CoveredAll(w, h, done, c, l);
      assert Shows(final, Spot((c, l).0, (c, l).1, w, outN), want((c, l).0, (c, l).1));
    }
  }

  /** Decodes the passes in turn. */
  method DecodePasses(final: array<nat>, raw: seq<nat>, passes: nat, w: nat, h: nat, n: nat, outN: nat,
      ghost want: (nat, nat) -> seq<nat>)
    returns (ok: bool, ghost done: set<(nat, nat)>)
    requires passes <= 7 && n > 0 && (outN == n || outN == n + 1) && final.Length == w * h * outN
      && want == Wanted(raw, w, h, n, outN)
    modifies final
    ensures ok == Decodable(raw, passes, w, h, n)
    ensures ok ==> InPlace(final, w, h, outN, want, done) && PassesCovered(passes, w, h, done)
  {
    var at: nat := 0;
    done := {};
    for p := 0 to passes
      invariant InPlace(final, w, h, outN, want, done) && PassesCovered(p, w, h, done)
      invariant Decodable(raw, p, w, h, n) && at == PassStart(p, w, h, n)
    {
      PassFits(raw, p, w, h, n);
      ok, done := OnePass(final, raw, at, p, w, h, n, outN, want, done);
      if !ok {
        return;
      }
      at := at + PassBytes(p, w, h, n);
    }
    ok := true;
  }

  // ----- the passes by their pattern -----

  /** How many bytes the passes before p take: for each that has pixels, a filter and the samples of each of
      its rows. */
  ghost function PatternStart(p: nat, w: nat, h: nat, n: nat): nat {
    if p == 0 then 0 else PatternStart(p - 1, w, h, n) + PatternBytes(ColumnsBefore(p - 1, w), LinesBefore(p - 1, h), n)
  }

  function PatternBytes(x: nat, y: nat, n: nat): nat {
    if x > 0 && y > 0 then y * (x * n + 1) else 0
  }

  lemma BytesArePattern(p: nat, w: nat, h: nat, n: nat)
    requires p < 7
    ensures PassBytes(p, w, h, n) == PatternBytes(ColumnsBefore(p, w), LinesBefore(p, h), n)
  {
    WidthCounts(p, w);
    HeightCounts(p, h);
    BytesOfPass(p, w, h, n, PassWidth(p, w), PassHeight(p, h));
  }

  lemma BytesOfPass(p: nat, w: nat, h: nat, n: nat, x: nat, y: nat)
    requires p < 7 && x == PassWidth(p, w) && y == PassHeight(p, h)
    ensures PassBytes(p, w, h, n) == PatternBytes(x, y, n)
  {
    RowStartAt(x * n, y);
  }

  /** The bytes of pass p are there, with a filter for each row. */
  ghost predicate PatternComplete(raw: seq<nat>, p: nat, w: nat, h: nat, n: nat) {
    var x, y, at := ColumnsBefore(p, w), LinesBefore(p, h), PatternStart(p, w, h, n);
    x > 0 && y > 0 ==> at <= |raw| && Complete(raw[at..], x * n, y)
  }

  /** The rows are those of pass p. */
  ghost predicate PatternGiven(raw: seq<nat>, p: nat, w: nat, h: nat, n: nat, rows: seq<seq<nat>>) {
    var at := PatternStart(p, w, h, n);
    at <= |raw| && |rows| == LinesBefore(p, h) && Given(raw[at..], rows, n, ColumnsBefore(p, w) * n)
  }

  /** The pixel in column c of line l is the one that its pass holds: that pass has as many columns before it as the
      pattern gives to the pass, and as many lines. */
  ghost predicate PixelGiven(raw: seq<nat>, w: nat, h: nat, n: nat, outN: nat, c: nat, l: nat, pixel: seq<nat>) {
    var p := PatternAt(c, l);
    p >= 0 && exists rows ::
      PatternGiven(raw, p, w, h, n, rows) && pixel == PixelOf(rows, n, outN, ColumnsBefore(p, c), LinesBefore(p, l))
  }

  lemma {:induction false} StartIsPattern(p: nat, w: nat, h: nat, n: nat)
    requires p <= 7
    ensures PassStart(p, w, h, n) == PatternStart(p, w, h, n)
  {
    if p > 0 {
      StartIsPattern(p - 1, w, h, n);
      BytesArePattern(p - 1, w, h, n);
    }
  }

  lemma PassIsPattern(raw: seq<nat>, p: nat, w: nat, h: nat, n: nat)
    requires p < 7 && n > 0
    ensures PatternComplete(raw, p, w, h, n) <==> (Occurs(p, w, h) ==> PassDecoded(raw, p, w, h, n).Rows?)
    ensures PassDecoded(raw, p, w, h, n).Rows? ==>
      PatternGiven(raw, p, w, h, n, PassDecoded(raw, p, w, h, n).rows)
  {
    StartIsPattern(p, w, h, n);
    WidthCounts(p, w);
    HeightCounts(p, h);
    var at, len, y := PassStart(p, w, h, n), PassWidth(p, w) * n, PassHeight(p, h);
    if at <= |raw| { DecodedMeans(n, len, raw[at..], y); }
  }

  lemma DecodableIsComplete(raw: seq<nat>, w: nat, h: nat, n: nat)
    requires n > 0
    ensures Decodable(raw, PASSES, w, h, n) <==> forall p: nat :: p < 7 ==> PatternComplete(raw, p, w, h, n)
  {
    forall p: nat | p < 7
      ensures PatternComplete(raw, p, w, h, n) <==> (Occurs(p, w, h) ==> PassDecoded(raw, p, w, h, n).Rows?)
    {
      PassIsPattern(raw, p, w, h, n);
    }
  }

  /** The pixel wanted is the one that the pattern asks for. */
  lemma WantedIsGiven(raw: seq<nat>, w: nat, h: nat, n: nat, outN: nat, c: nat, l: nat)
    requires n > 0 && Decodable(raw, PASSES, w, h, n) && c < w && l < h
    ensures PixelGiven(raw, w, h, n, outN, c, l, Wanted(raw, w, h, n, outN)(c, l))
  {
    var p := PassOf(c, l);
    var i, j := InSomePass(c, l, w, h);
    PlaceCounts(p, i, j, c, l, w, h);
    PlaceAgain(p, i, j);
    PassIsPattern(raw, p, w, h, n);
  }

  // ----- both -----

  /** The bytes hold an image. */
  ghost predicate Holds(raw: seq<nat>, w: nat, h: nat, n: nat, interlaced: bool) {
    if interlaced then forall p: nat :: p < 7 ==> PatternComplete(raw, p, w, h, n) else Complete(raw, w * n, h)
  }

  /** The pixel is the one that an image has in column c of line l. */
  ghost predicate HasPixel(raw: seq<nat>, w: nat, h: nat, n: nat, outN: nat, interlaced: bool, c: nat, l: nat,
      pixel: seq<nat>) {
    if interlaced then PixelGiven(raw, w, h, n, outN, c, l, pixel)
    else exists rows :: |rows| == h && Given(raw, rows, n, w * n) && pixel == PixelOf(rows, n, outN, c, l)
  }

  /** The memory holds the pixel, if it is the right one. */
  ghost predicate PixelPlaced(final: array<nat>, raw: seq<nat>, w: nat, h: nat, n: nat, outN: nat, interlaced: bool,
      c: nat, l: nat)
    reads final
  {
    exists pixel :: HasPixel(raw, w, h, n, outN, interlaced, c, l, pixel) && Shows(final, Spot(c, l, w, outN), pixel)
      && |pixel| == outN
  }

  /** Reconstructs an interlaced image. */
  method Deinterlace(raw: seq<nat>, w: nat, h: nat, n: nat, outN: nat) returns (ok: bool, final: array<nat>)
    requires n > 0 && (outN == n || outN == n + 1)
    ensures fresh(final) && final.Length == w * h * outN && ok == Decodable(raw, PASSES, w, h, n)
    ensures ok ==> AllShown(final, w, h, outN, Wanted(raw, w, h, n, outN))
  {
    final := new nat[w * h * outN];
    ghost var done;
    ok, done := DecodePasses(final, raw, PASSES, w, h, n, outN, Wanted(raw, w, h, n, outN));
    if ok { AllInPlace(final, w, h, outN, Wanted(raw, w, h, n, outN), done); }
  }

  /** Reconstructs an image, interlaced or not: succeeds exactly if the bytes hold one, and then every pixel is the one
      that they hold for it. */
  method CreateImage(raw: seq<nat>, w: nat, h: nat, n: nat, outN: nat, interlaced: bool)
    returns (ok: bool, final: array<nat>)
    requires w > 0 && n > 0 && (outN == n || outN == n + 1)
    ensures fresh(final) && ok == Holds(raw, w, h, n, interlaced)
    ensures ok ==> forall c, l :: 0 <= c < w && 0 <= l < h ==>
      PixelPlaced(final, raw, w, h, n, outN, interlaced, c, l)
  {
    if !interlaced {
      ok, final := CreateImageRaw(raw, w, h, n, outN);
      if ok { PlainPlaced(final, raw, w, h, n, outN, Decoded(n, w * n, raw, h).rows); }
      return;
    }
    DecodableIsComplete(raw, w, h, n);
    ok, final := Deinterlace(raw, w, h, n, outN);
    if ok {
      forall c: nat, l: nat | c < w && l < h ensures PixelPlaced(final, raw, w, h, n, outN, interlaced, c, l) {
        WantedIsGiven(raw, w, h, n, outN, c, l);
      }
    }
  }

  lemma PlainPlaced(final: array<nat>, raw: seq<nat>, w: nat, h: nat, n: nat, outN: nat, rows: seq<seq<nat>>)
    requires n > 0 && (outN == n || outN == n + 1) && Image(rows, w * n) && |rows| == h && Given(raw, rows, n, w * n)
    requires final[..] == Laid(rows, n, outN)
    ensures forall c, l :: 0 <= c < w && 0 <= l < h ==> PixelPlaced(final, raw, w, h, n, outN, false, c, l)
  {
    forall c: nat, l: nat | c < w && l < h ensures PixelPlaced(final, raw, w, h, n, outN, false, c, l) {
      var pixel := PixelOf(rows, n, outN, c, l);
      PlainPixel(final, rows, w, h, n, outN, c, l);
      assert HasPixel(raw, w, h, n, outN, false, c, l, pixel);
    }
  }
}
