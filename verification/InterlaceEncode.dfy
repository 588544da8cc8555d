/** Interlacing an image, and that reconstructing it gives it back. */
module InterlaceEncode {
  import opened Bits
  import opened PngFilter
  import opened PngImage
  import opened Adam7
  import opened Interlaced

  /** The first i pixels of row j of pass p. */
  function PassRow(rows: seq<seq<nat>>, n: nat, p: nat, j: nat, i: nat): seq<nat>
    requires p < 7
  {
    if i == 0 then [] else PassRow(rows, n, p, j, i - 1) + PixelOf(rows, n, n, ColumnOf(p, i - 1), LineOf(p, j))
  }

  function PassRows(rows: seq<seq<nat>>, w: nat, h: nat, n: nat, p: nat): seq<seq<nat>>
    requires p < 7
  {
    seq(PassHeight(p, h), j requires 0 <= j => PassRow(rows, n, p, j, PassWidth(p, w)))
  }

  lemma PixelSamples(rows: seq<seq<nat>>, n: nat, w: nat, c: nat, l: nat)
    requires n > 0 && Image(rows, Samples(w, n)) && c < w && l < |rows|
    ensures |PixelOf(rows, n, n, c, l)| == n && AreSamples(PixelOf(rows, n, n, c, l))
  {
    SamplesFewer(c + 1, w, n);
  }

  lemma {:induction false} PassRowLength(rows: seq<seq<nat>>, n: nat, w: nat, h: nat, p: nat, j: nat, i: nat)
    requires n > 0 && Image(rows, Samples(w, n)) && |rows| == h && p < 7 && j < PassHeight(p, h) && i <= PassWidth(p, w)
    ensures |PassRow(rows, n, p, j, i)| == Samples(i, n) && AreSamples(PassRow(rows, n, p, j, i))
  {
    if i > 0 {
      PassRowLength(rows, n, w, h, p, j, i - 1);
      ColumnInside(p, i - 1, w);
      LineInside(p, j, h);
      PixelSamples(rows, n, w, ColumnOf(p, i - 1), LineOf(p, j));
    }
  }

  lemma PassPixel(rows: seq<seq<nat>>, n: nat, w: nat, h: nat, p: nat, i: nat, j: nat)
    requires n > 0 && Image(rows, Samples(w, n)) && |rows| == h && p < 7 && i < PassWidth(p, w) && j < PassHeight(p, h)
    ensures |PixelOf(rows, n, n, ColumnOf(p, i), LineOf(p, j))| == n
  {
    ColumnInside(p, i, w);
    LineInside(p, j, h);
    PixelSamples(rows, n, w, ColumnOf(p, i), LineOf(p, j));
  }

  lemma AtTheEnd(before: seq<nat>, px: seq<nat>, m: nat, n: nat)
    requires m == |before| && n == |px|
    ensures (before + px)[m..m + n] == px
  {}

  /** Pixel k of the row of a pass is the pixel of the image. */
  lemma {:induction false} PassRowAt(rows: seq<seq<nat>>, n: nat, w: nat, h: nat, p: nat, j: nat, i: nat, k: nat,
      m: nat)
    requires n > 0 && Image(rows, Samples(w, n)) && |rows| == h && p < 7 && j < PassHeight(p, h)
      && k < i <= PassWidth(p, w)
    requires m == Samples(k, n)
    ensures m + n <= |PassRow(rows, n, p, j, i)|
    ensures PassRow(rows, n, p, j, i)[m..m + n] == PixelOf(rows, n, n, ColumnOf(p, k), LineOf(p, j))
  {
    var u := i - 1;
    var before, px := PassRow(rows, n, p, j, u), PixelOf(rows, n, n, ColumnOf(p, u), LineOf(p, j));
    assert PassRow(rows, n, p, j, i) == before + px;
    if k < u {
      PassRowAt(rows, n, w, h, p, j, u, k, m);
      SliceOfFirst(before, px, m, n);
    } else {
      PassRowLength(rows, n, w, h, p, j, u);
      PassPixel(rows, n, w, h, p, u, j);
      AtTheEnd(before, px, m, n);
    }
  }

  lemma PassImage(rows: seq<seq<nat>>, n: nat, w: nat, h: nat, p: nat, len: nat)
    requires n > 0 && Image(rows, Samples(w, n)) && |rows| == h && p < 7 && len == PassWidth(p, w) * n
    ensures Image(PassRows(rows, w, h, n, p), len) && |PassRows(rows, w, h, n, p)| == PassHeight(p, h)
  {
    SamplesIsProduct(PassWidth(p, w), n);
    forall j | 0 <= j < PassHeight(p, h)
      ensures |PassRow(rows, n, p, j, PassWidth(p, w))| == len && AreSamples(PassRow(rows, n, p, j, PassWidth(p, w)))
    {
      PassRowLength(rows, n, w, h, p, j, PassWidth(p, w));
    }
  }

  // ----- the bytes -----

  /** An image, and for each pass a filter for each of its rows. */
  ghost predicate Interlaceable(rows: seq<seq<nat>>, w: nat, h: nat, n: nat, fs: seq<seq<nat>>) {
    && n > 0 && Image(rows, Samples(w, n)) && |rows| == h && |fs| == 7
    && forall p :: 0 <= p < 7 ==> |fs[p]| == PassHeight(p, h) && Filters(fs[p])
  }

  function EncodedPass(rows: seq<seq<nat>>, w: nat, h: nat, n: nat, fs: seq<seq<nat>>, p: nat): seq<nat>
    requires Interlaceable(rows, w, h, n, fs) && p < 7
  {
    PassImage(rows, n, w, h, p, PassWidth(p, w) * n);
    if Occurs(p, w, h) then Encoded(n, PassWidth(p, w) * n, PassRows(rows, w, h, n, p), fs[p]) else []
  }

  /** The passes from p on. */
  function EncodedFrom(rows: seq<seq<nat>>, w: nat, h: nat, n: nat, fs: seq<seq<nat>>, p: nat): seq<nat>
    requires Interlaceable(rows, w, h, n, fs) && p <= 7
    decreases 7 - p
  {
    if p == 7 then [] else EncodedPass(rows, w, h, n, fs, p) + EncodedFrom(rows, w, h, n, fs, p + 1)
  }

  lemma EncodedPassLength(rows: seq<seq<nat>>, w: nat, h: nat, n: nat, fs: seq<seq<nat>>, p: nat)
    requires Interlaceable(rows, w, h, n, fs) && p < 7
    ensures |EncodedPass(rows, w, h, n, fs, p)| == PassBytes(p, w, h, n)
  {
    PassImage(rows, n, w, h, p, PassWidth(p, w) * n);
    if Occurs(p, w, h) { EncodedLength(n, PassWidth(p, w) * n, PassRows(rows, w, h, n, p), fs[p]); }
  }

  lemma PassRoundTrip(rows: seq<seq<nat>>, w: nat, h: nat, n: nat, fs: seq<seq<nat>>, p: nat, before: seq<nat>,
      more: seq<nat>, raw: seq<nat>)
    requires Interlaceable(rows, w, h, n, fs) && p < 7 && |before| == PassStart(p, w, h, n) && Occurs(p, w, h)
    requires raw == before + (EncodedPass(rows, w, h, n, fs, p) + more)
    ensures PassDecoded(raw, p, w, h, n) == Rows(PassRows(rows, w, h, n, p))
  {
    var len := PassWidth(p, w) * n;
    PassImage(rows, n, w, h, p, len);
    assert raw[|before|..] == EncodedPass(rows, w, h, n, fs, p) + more;
    ImageRoundTrip(n, len, PassRows(rows, w, h, n, p), fs[p], more);
  }

  lemma {:induction false} PassesRoundTrip(rows: seq<seq<nat>>, w: nat, h: nat, n: nat, fs: seq<seq<nat>>, p: nat,
      q: nat,
      before: seq<nat>, more: seq<nat>, raw: seq<nat>)
    requires Interlaceable(rows, w, h, n, fs) && p <= q < 7 && |before| == PassStart(p, w, h, n) && Occurs(q, w, h)
    requires raw == before + (EncodedFrom(rows, w, h, n, fs, p) + more)
    ensures PassDecoded(raw, q, w, h, n) == Rows(PassRows(rows, w, h, n, q))
    decreases q - p
  {
    var bytes, rest := EncodedPass(rows, w, h, n, fs, p), EncodedFrom(rows, w, h, n, fs, p + 1) + more;
    Regroup(bytes, EncodedFrom(rows, w, h, n, fs, p + 1), more);
    assert raw == before + (bytes + rest);
    if p == q {
      PassRoundTrip(rows, w, h, n, fs, p, before, rest, raw);
    } else {
      EncodedPassLength(rows, w, h, n, fs, p);
      Regroup(before, bytes, rest);
      PassesRoundTrip(rows, w, h, n, fs, p + 1, q, before + bytes, more, raw);
    }
  }

  // ----- the image -----

  /** The samples of a pixel, and its alpha. */
  lemma PixelSplit(rows: seq<seq<nat>>, n: nat, outN: nat, c: nat, l: nat)
    requires |PixelOf(rows, n, n, c, l)| == n > 0
    ensures PixelOf(rows, n, outN, c, l) == PixelOf(rows, n, n, c, l) + if outN == n then [] else [255]
  {}

  lemma RowPixel(rows: seq<seq<nat>>, n: nat, i: nat, j: nat, row: seq<nat>, m: nat)
    requires j < |rows| && rows[j] == row && m == Samples(i, n) && m + n <= |row|
    ensures PixelOf(rows, n, n, i, j) == row[m..m + n]
  {}

  lemma SamePixel(rows: seq<seq<nat>>, w: nat, h: nat, n: nat, outN: nat, p: nat, i: nat, j: nat)
    requires n > 0 && Image(rows, Samples(w, n)) && |rows| == h && p < 7 && i < PassWidth(p, w) && j < PassHeight(p, h)
    ensures PixelOf(PassRows(rows, w, h, n, p), n, outN, i, j) == PixelOf(rows, n, outN, ColumnOf(p, i), LineOf(p, j))
  {
    var x, m, c, l := PassWidth(p, w), Samples(i, n), ColumnOf(p, i), LineOf(p, j);
    PassRowAt(rows, n, w, h, p, j, x, i, m);
    PassPixel(rows, n, w, h, p, i, j);
    RowPixel(PassRows(rows, w, h, n, p), n, i, j, PassRow(rows, n, p, j, x), m);
    PixelSplit(PassRows(rows, w, h, n, p), n, outN, i, j);
    PixelSplit(rows, n, outN, c, l);
  }

  /** Interlacing an image, filtering its passes in any way, and reconstructing it gives it back. */
  lemma InterlaceRoundTrip(rows: seq<seq<nat>>, w: nat, h: nat, n: nat, outN: nat, fs: seq<seq<nat>>, more: seq<nat>,
      raw: seq<nat>, start: nat)
    requires Interlaceable(rows, w, h, n, fs) && start == 0 && raw == EncodedFrom(rows, w, h, n, fs, start) + more
    ensures Decodable(raw, PASSES, w, h, n)
    ensures forall c, l :: 0 <= c < w && 0 <= l < h ==> Wanted(raw, w, h, n, outN)(c, l) == PixelOf(rows, n, outN, c, l)
  {
    assert raw == [] + raw;
    forall q: nat | q < 7 && Occurs(q, w, h) ensures PassDecoded(raw, q, w, h, n) == Rows(PassRows(rows, w, h, n, q)) {
      PassesRoundTrip(rows, w, h, n, fs, start, q, [], more, raw);
    }
    forall c: nat, l: nat | c < w && l < h ensures Wanted(raw, w, h, n, outN)(c, l) == PixelOf(rows, n, outN, c, l) {
      var i, j := InSomePass(c, l, w, h);
      var p := PassOf(c, l);
      PlaceAgain(p, i, j);
      SamePixel(rows, w, h, n, outN, p, i, j);
    }
  }
}
