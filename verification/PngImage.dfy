/** Reconstructing an 8-bit image from its filtered scanlines, in place. */
module PngImage {
  import opened Wrappers
  import opened PngFilter

  // ----- how samples are laid out -----

  /** i runs of n samples. */
  function Samples(i: nat, n: nat): nat {
    if i == 0 then 0 else Samples(i - 1, n) + n
  }

  lemma {:induction false} SamplesIsProduct(i: nat, n: nat)
    ensures Samples(i, n) == i * n
  {
    if i > 0 {
      SamplesIsProduct(i - 1, n);
      assert i * n == (i - 1) * n + n;
    }
  }

  lemma {:induction false} SamplesFewer(i: nat, j: nat, n: nat)
    requires i <= j
    ensures Samples(i, n) <= Samples(j, n)
    decreases j
  {
    if i < j { SamplesFewer(i, j - 1, n); }
  }

  /** The samples of each pixel followed by an opaque one. */
  function WithAlpha(s: seq<nat>, n: nat): seq<nat>
    requires n > 0
  {
    if |s| < n then [] else WithAlpha(s[..|s| - n], n) + (s[|s| - n..] + [255])
  }

  function Layout(row: seq<nat>, n: nat, outN: nat): seq<nat>
    requires n > 0
  {
    if outN == n then row else WithAlpha(row, n)
  }

  function Laid(rows: seq<seq<nat>>, n: nat, outN: nat): seq<nat>
    requires n > 0
  {
    if rows == [] then [] else Laid(rows[..|rows| - 1], n, outN) + Layout(rows[|rows| - 1], n, outN)
  }

  lemma {:induction false} AlphaLength(s: seq<nat>, n: nat, i: nat)
    requires n > 0 && |s| == Samples(i, n)
    ensures |WithAlpha(s, n)| == Samples(i, n + 1)
  {
    if i > 0 { AlphaLength(s[..|s| - n], n, i - 1); }
  }

  /** Where pixel i is found. */
  lemma {:induction false} AlphaAt(s: seq<nat>, n: nat, i: nat, x: nat, m: nat, u: nat)
    requires n > 0 && |s| == Samples(x, n) && i < x && m == Samples(i, n) && u == Samples(i, n + 1)
    ensures |WithAlpha(s, n)| == Samples(x, n + 1) >= u + n + 1 && m + n <= |s|
    ensures WithAlpha(s, n)[u..u + n] == s[m..m + n] && WithAlpha(s, n)[u + n] == 255
    decreases x
  {
    AlphaLength(s, n, x);
    var t := s[..|s| - n];
    AlphaLength(t, n, x - 1);
    if i < x - 1 {
      AlphaAt(t, n, i, x - 1, m, u);
      assert WithAlpha(s, n)[u..u + n] == WithAlpha(t, n)[u..u + n];
      assert s[m..m + n] == t[m..m + n];
    }
  }

  lemma {:induction false} LaidLength(rows: seq<seq<nat>>, n: nat, outN: nat, x: nat)
    requires n > 0 && (outN == n || outN == n + 1) && Image(rows, Samples(x, n))
    ensures |Laid(rows, n, outN)| == Samples(|rows|, Samples(x, outN))
  {
    if rows != [] {
      LaidLength(rows[..|rows| - 1], n, outN, x);
      AlphaLength(rows[|rows| - 1], n, x);
    }
  }

  // ----- one pixel -----

  /** What the decoder's filter number means in this row. */
  ghost predicate Means(fc: nat, f: nat, first: bool) {
    f <= 4 && fc == if first then FIRST_ROW_FILTER[f] else f
  }

  /** The sample that a byte stands for. */
  function Rebuilt(fc: nat, byte: nat, a: nat, b: nat, c: nat): nat
    requires fc <= 6
  {
    (byte + Guess(fc, a, b, c)) % 256
  }

  predicate ReadsAbove(fc: nat) {
    2 <= fc <= 4
  }

  /** The samples above are looked at only where there are some, and where they matter. */
  lemma RebuiltIs(fc: nat, f: nat, first: bool, byte: nat, a: nat, b: nat, c: nat)
    requires Means(fc, f, first) && (first ==> b == 0 && c == 0)
    ensures fc <= 6
    ensures var b', c' := if ReadsAbove(fc) then b else 0, if fc == 4 then c else 0;
      Rebuilt(fc, byte, a, b', c') == (byte + Predicted(f, a, b, c)) % 256
  {
    FirstRowFilter(f, a);
  }

  ghost predicate Shows(out: array<nat>, at: int, s: seq<nat>)
    reads out
  {
    0 <= at && at + |s| <= out.Length && forall k :: 0 <= k < |s| ==> out[at + k] == s[k]
  }

  /** The n samples at cur are those that the bytes stand for, next to a, b and c.  Under a lock. */
  ghost predicate PixelRebuilt(out: array<nat>, cur: nat, raw: seq<nat>, rp: nat, n: nat, f: nat, a: seq<nat>,
      b: seq<nat>, c: seq<nat>)
    requires cur + n <= out.Length && rp + n <= |raw| && f <= 4 && |a| == |b| == |c| == n
    reads out
  {
    forall key: nat {:trigger Unlock(key)} :: Unlock(key) ==>
      forall k :: 0 <= k < n ==> out[cur + k] == (raw[rp + k] + Predicted(f, a[k], b[k], c[k])) % 256
  }

  /** The neighbours of a pixel, as far as there are any.  Under a lock. */
  ghost predicate PixelReady(out: array<nat>, cur: nat, left: int, above: int, aboveLeft: int, n: nat, start: bool,
      first: bool,
      a: seq<nat>, b: seq<nat>, c: seq<nat>)
    reads out
  {
    forall key: nat {:trigger Unlock(key)} :: Unlock(key) ==>
    && (if start then a == Zeros(n) && c == Zeros(n) else left + |a| <= cur && Shows(out, left, a))
    && (if first then b == Zeros(n) && c == Zeros(n) else above + |b| <= cur && Shows(out, above, b))
    && (!first && !start ==> aboveLeft + |c| <= cur && Shows(out, aboveLeft, c))
  }

  /** Rebuilds the n samples at cur, from those at left, above and above left.  At the start of a row
      there are none to the left. */
  method Pixel(out: array<nat>, cur: nat, left: int, above: int, aboveLeft: int, raw: seq<nat>, rp: nat, fc: nat,
      n: nat, start: bool,
      ghost f: nat, ghost first: bool, ghost a: seq<nat>, ghost b: seq<nat>, ghost c: seq<nat>)
    requires cur + n <= out.Length && rp + n <= |raw| && Means(fc, f, first) && |a| == |b| == |c| == n
    requires PixelReady(out, cur, left, above, aboveLeft, n, start, first, a, b, c)
    modifies out
    ensures PixelRebuilt(out, cur, raw, rp, n, f, a, b, c)
    ensures forall k :: 0 <= k < out.Length && !(cur <= k < cur + n) ==> out[k] == old(out[k])
  {
    assert Unlock(0);
    for k := 0 to n
      invariant forall i :: 0 <= i < k ==> out[cur + i] == (raw[rp + i] + Predicted(f, a[i], b[i], c[i])) % 256
      invariant forall i :: 0 <= i < out.Length && !(cur <= i < cur + k) ==> out[i] == old(out[i])
    {
      RebuiltIs(fc, f, first, raw[rp + k], a[k], b[k], c[k]);
      var a' := if start then 0 else out[left + k];
      var b' := if ReadsAbove(fc) then out[above + k] else 0;
      var c' := if fc == 4 && !start then out[aboveLeft + k] else 0;
      out[cur + k] := Rebuilt(fc, raw[rp + k], a', b', c');
    }
  }

  // ----- one row -----

  /** The next n samples of a row. */
  lemma {:induction false} NextSamples(f: nat, n: nat, bytes: seq<nat>, above: seq<nat>, m: nat, px: seq<nat>, k: nat,
      a: seq<nat>, b: seq<nat>, c: seq<nat>)
    requires f <= 4 && n > 0 && |above| == |bytes| && m + n <= |bytes| && |px| == n && k <= n && |a| == |b| == |c| == n
    requires forall i :: 0 <= i < n ==> a[i] == Back(Unfiltered(f, n, bytes, above, m) + px[..i], m + i, n)
    requires forall i :: 0 <= i < n ==> b[i] == above[m + i] && c[i] == Back(above, m + i, n)
    requires forall i :: 0 <= i < n ==> px[i] == (bytes[m + i] + Predicted(f, a[i], b[i], c[i])) % 256
    ensures Unfiltered(f, n, bytes, above, m + k) == Unfiltered(f, n, bytes, above, m) + px[..k]
  {
    if k > 0 {
      NextSamples(f, n, bytes, above, m, px, k - 1, a, b, c);
      assert px[..k] == px[..k - 1] + [px[k - 1]];
    } else {
      assert px[..0] == [];
    }
  }

  /** The samples n places before the pixel at sample m. */
  function LeftOf(s: seq<nat>, m: nat, n: nat): (r: seq<nat>)
    requires m <= |s| && n > 0
    ensures |r| == n
  {
    if m < n then Zeros(n) else s[m - n..m]
  }

  lemma LeftIsBack(s: seq<nat>, m: nat, n: nat, px: seq<nat>, i: nat)
    requires n > 0 && |s| == m && i < n == |px| && (m == 0 || m >= n)
    ensures LeftOf(s, m, n)[i] == Back(s + px[..i], m + i, n)
  {}

  lemma AboveLeftIsBack(s: seq<nat>, m: nat, n: nat, i: nat)
    requires n > 0 && m + n <= |s| && i < n && (m == 0 || m >= n)
    ensures LeftOf(s, m, n)[i] == Back(s, m + i, n)
  {}

  /** Rebuilding one pixel after those before it. */
  lemma PixelDone(f: nat, n: nat, bytes: seq<nat>, above: seq<nat>, m: nat, px: seq<nat>, row: seq<nat>)
    requires f <= 4 && n > 0 && |above| == |bytes| && m + n <= |bytes| && |px| == n && (m == 0 || m >= n)
    requires row == Unfiltered(f, n, bytes, above, m)
    requires forall i :: 0 <= i < n ==>
      px[i] == (bytes[m + i] + Predicted(f, LeftOf(row, m, n)[i], above[m..m + n][i], LeftOf(above, m, n)[i])) % 256
    ensures Unfiltered(f, n, bytes, above, m + n) == row + px
  {
    forall i | 0 <= i < n
      ensures LeftOf(row, m, n)[i] == Back(row + px[..i], m + i, n) && LeftOf(above, m, n)[i] == Back(above, m + i, n)
    {
      LeftIsBack(row, m, n, px, i);
      AboveLeftIsBack(above, m, n, i);
    }
    NextSamples(f, n, bytes, above, m, px, n, LeftOf(row, m, n), above[m..m + n], LeftOf(above, m, n));
    assert px[..n] == px;
  }

  /** What is read and what is above it: the bytes of the row, and the row above as it is laid out. */
  ghost predicate RowReady(out: array<nat>, start: nat, prior: int, raw: seq<nat>, rp: nat, fc: nat, f: nat,
      first: bool,
      n: nat, bytes: seq<nat>, above: seq<nat>, laid: seq<nat>)
    reads out
  {
    && n > 0 && Means(fc, f, first) && |above| == |bytes| && start + |laid| <= out.Length
    && rp + |bytes| <= |raw| && raw[rp..rp + |bytes|] == bytes
    && if first then above == Zeros(|bytes|) else prior + |laid| <= start && Shows(out, prior, laid)
  }

  /** One sample more. */
  method PutSample(out: array<nat>, start: nat, k: nat, v: nat, ghost before: seq<nat>)
    requires |before| == k && start + k < out.Length && Shows(out, start, before)
    modifies out
    ensures Shows(out, start, before + [v])
    ensures forall i :: 0 <= i < out.Length && i != start + k ==> out[i] == old(out[i])
  {
    out[start + k] := v;
  }

  /** What the loop takes for the neighbours of sample k is what the filter asks for. */
  lemma SampleIs(out: array<nat>, start: nat, prior: int, raw: seq<nat>, rp: nat, fc: nat, n: nat, k: nat,
      f: nat, first: bool, bytes: seq<nat>, above: seq<nat>, row: seq<nat>, a': nat, b': nat, c': nat)
    requires RowReady(out, start, prior, raw, rp, fc, f, first, n, bytes, above, above) && k < |bytes|
    requires row == Unfiltered(f, n, bytes, above, k) && Shows(out, start, row)
    requires a' == if k < n then 0 else out[start + k - n]
    requires b' == if ReadsAbove(fc) then out[prior + k] else 0
    requires c' == if fc == 4 && k >= n then out[prior + k - n] else 0
    ensures row + [Rebuilt(fc, raw[rp + k], a', b', c')] == Unfiltered(f, n, bytes, above, k + 1)
  {
    var a, c := Back(row, k, n), Back(above, k, n);
    RebuiltIs(fc, f, first, raw[rp + k], a, above[k], c);
    assert bytes[k] == raw[rp + k];
  }

  /** One sample, where pixels have no alpha added. */
  method PlainSample(out: array<nat>, start: nat, prior: int, raw: seq<nat>, rp: nat, fc: nat, n: nat, k: nat,
      ghost f: nat, ghost first: bool, ghost bytes: seq<nat>, ghost above: seq<nat>)
    requires RowReady(out, start, prior, raw, rp, fc, f, first, n, bytes, above, above) && k < |bytes|
    requires Shows(out, start, Unfiltered(f, n, bytes, above, k))
    modifies out
    ensures Shows(out, start, Unfiltered(f, n, bytes, above, k + 1))
    ensures forall i :: 0 <= i < out.Length && i != start + k ==> out[i] == old(out[i])
  {
    ghost var row := Unfiltered(f, n, bytes, above, k);
    var a' := if k < n then 0 else out[start + k - n];
    var b' := if ReadsAbove(fc) then out[prior + k] else 0;
    var c' := if fc == 4 && k >= n then out[prior + k - n] else 0;
    SampleIs(out, start, prior, raw, rp, fc, n, k, f, first, bytes, above, row, a', b', c');
    PutSample(out, start, k, Rebuilt(fc, raw[rp + k], a', b', c'), row);
  }

  /** A row whose pixels have no alpha added: the first pixel's samples, and then the others. */
  method PlainRow(out: array<nat>, start: nat, prior: int, raw: seq<nat>, rp: nat, fc: nat, n: nat, len: nat,
      ghost f: nat, ghost first: bool, ghost bytes: seq<nat>, ghost above: seq<nat>)
    requires RowReady(out, start, prior, raw, rp, fc, f, first, n, bytes, above, above) && n <= len == |bytes|
    modifies out
    ensures Shows(out, start, Unfiltered(f, n, bytes, above, len))
    ensures forall i :: 0 <= i < out.Length && !(start <= i < start + len) ==> out[i] == old(out[i])
  {
    for k := 0 to len
      invariant Shows(out, start, Unfiltered(f, n, bytes, above, k))
      invariant forall i :: 0 <= i < out.Length && !(start <= i < start + k) ==> out[i] == old(out[i])
    {
      PlainSample(out, start, prior, raw, rp, fc, n, k, f, first, bytes, above);
    }
  }

  /** What the memory holds of a row with alpha after i pixels. */
  ghost predicate AlphaSoFar(out: array<nat>, start: nat, cur: nat, f: nat, n: nat, bytes: seq<nat>, above: seq<nat>,
      i: nat, x: nat, m: nat)
    requires n > 0
    reads out
  {
    && f <= 4 && |above| == |bytes| == Samples(x, n) && i <= x && m == Samples(i, n) <= |bytes|
       && cur == start + Samples(i, n + 1)
    && Shows(out, start, WithAlpha(Unfiltered(f, n, bytes, above, m), n))
  }

  lemma SliceShows(out: array<nat>, at: int, s: seq<nat>, u: nat, n: nat, to: int)
    requires Shows(out, at, s) && u + n <= |s| && to == at + u
    ensures Shows(out, to, s[u..u + n])
  {
    var t := s[u..u + n];
    forall k | 0 <= k < n ensures out[to + k] == t[k] {
      assert out[at + (u + k)] == s[u + k];
    }
  }

  /** Pixel i of a row with alpha. */
  lemma AlphaShows(out: array<nat>, at: int, s: seq<nat>, n: nat, i: nat, x: nat, m: nat, u: nat, to: int)
    requires n > 0 && Shows(out, at, WithAlpha(s, n)) && |s| == Samples(x, n) && i < x && m == Samples(i, n)
      && u == Samples(i, n + 1)
    requires to == at + u
    ensures m + n <= |s| && to + n <= at + |WithAlpha(s, n)| && Shows(out, to, s[m..m + n])
  {
    AlphaAt(s, n, i, x, m, u);
    SliceShows(out, at, WithAlpha(s, n), u, n, to);
  }

  lemma PixelInside(x: nat, i: nat, n: nat, m: nat, u: nat)
    requires n > 0 && i < x && m == Samples(i, n) && u == Samples(i, n + 1)
    ensures m + n <= Samples(x, n) && u + n + 1 <= Samples(x, n + 1) && (i == 0 <==> m == 0) && (m == 0 || m >= n)
  {
    SamplesFewer(i + 1, x, n);
    SamplesFewer(i + 1, x, n + 1);
  }

  /** What stands to the left of pixel i. */
  lemma LeftShown(out: array<nat>, start: nat, row: seq<nat>, n: nat, i: nat, m: nat, u: nat, cur: nat, left: int)
    requires n > 0 && i > 0 && m == Samples(i, n) == |row| && u == Samples(i, n + 1) && cur == start + u
      && left == cur - (n + 1)
    requires Shows(out, start, WithAlpha(row, n))
    ensures 0 <= left && left + n <= cur && Shows(out, left, LeftOf(row, m, n))
  {
    AlphaLength(row, n, i);
    AlphaShows(out, start, row, n, i - 1, i, m - n, u - (n + 1), left);
  }

  /** What stands above pixel i, and above the one before it. */
  lemma AboveShown(out: array<nat>, prior: int, up: seq<nat>, n: nat, i: nat, x: nat, m: nat, u: nat, above: int,
      aboveLeft: int, cur: nat)
    requires n > 0 && i < x && |up| == Samples(x, n) && m == Samples(i, n) && u == Samples(i, n + 1)
    requires above == prior + u && aboveLeft == above - (n + 1) && prior + |WithAlpha(up, n)| <= cur
      && Shows(out, prior, WithAlpha(up, n))
    ensures m + n <= |up| && above + n <= cur && Shows(out, above, up[m..m + n])
    ensures i > 0 ==> aboveLeft + n <= cur && Shows(out, aboveLeft, LeftOf(up, m, n))
  {
    AlphaShows(out, prior, up, n, i, x, m, u, above);
    if i > 0 { AlphaShows(out, prior, up, n, i - 1, x, m - n, u - (n + 1), aboveLeft); }
  }

  lemma ReadyForPixel(out: array<nat>, start: nat, cur: nat, prior: int, left: int, above: int, aboveLeft: int,
      n: nat, i: nat,
      first: bool, row: seq<nat>, up: seq<nat>, x: nat, m: nat, u: nat)
    requires n > 0 && i < x && |up| == Samples(x, n) && m == Samples(i, n) == |row| && u == Samples(i, n + 1)
      && cur == start + u
    requires left == cur - (n + 1) && above == prior + u && aboveLeft == above - (n + 1)
      && Shows(out, start, WithAlpha(row, n))
    requires if first then up == Zeros(|up|)
      else prior + |WithAlpha(up, n)| <= start && Shows(out, prior, WithAlpha(up, n))
    ensures m + n <= |up|
      && PixelReady(out, cur, left, above, aboveLeft, n, i == 0, first, LeftOf(row, m, n), up[m..m + n],
         LeftOf(up, m, n))
  {
    PixelInside(x, i, n, m, u);
    if i > 0 { LeftShown(out, start, row, n, i, m, u, cur, left); }
    if !first { AboveShown(out, prior, up, n, i, x, m, u, above, aboveLeft, cur); }
    ZerosAbove(first, up, m, n);
  }

  /** Rebuilds pixel i of a row with alpha. */
  method AlphaPixel(out: array<nat>, start: nat, cur: nat, prior: int, above: int, raw: seq<nat>, rp: nat, fc: nat,
      n: nat, i: nat,
      ghost rp0: nat, ghost f: nat, ghost first: bool, ghost bytes: seq<nat>, ghost up: seq<nat>, ghost x: nat,
        ghost m: nat, ghost u: nat)
    returns (ghost px: seq<nat>)
    requires n > 0 && RowReady(out, start, prior, raw, rp0, fc, f, first, n, bytes, up, WithAlpha(up, n))
    requires AlphaSoFar(out, start, cur, f, n, bytes, up, i, x, m) && i < x && rp == rp0 + m && u == cur - start
      && above == prior + u
    modifies out
    ensures |px| == n && m + n <= |bytes| && cur + n + 1 <= start + |WithAlpha(up, n)| <= out.Length
      && Shows(out, cur, px)
    ensures Unfiltered(f, n, bytes, up, m + n) == Unfiltered(f, n, bytes, up, m) + px
    ensures forall k :: 0 <= k < out.Length && !(cur <= k < cur + n) ==> out[k] == old(out[k])
    ensures Shows(out, start, WithAlpha(Unfiltered(f, n, bytes, up, m), n))
  {
    ghost var row := Unfiltered(f, n, bytes, up, m);
    AlphaLength(row, n, i);
    var left, aboveLeft := cur - (n + 1), above - (n + 1);
    PixelInside(x, i, n, m, u);
    AlphaLength(up, n, x);
    ReadyForPixel(out, start, cur, prior, left, above, aboveLeft, n, i, first, row, up, x, m, u);
    Pixel(out, cur, left, above, aboveLeft, raw, rp, fc, n, i == 0, f, first,
      LeftOf(row, m, n), up[m..m + n], LeftOf(up, m, n));
    px := out[cur..cur + n];
    PixelTaken(out, cur, raw, rp0, rp, bytes, m, n, f, row, up, px);
  }

  /** So the row goes on with them. */
  lemma PixelTaken(out: array<nat>, cur: nat, raw: seq<nat>, rp0: nat, rp: nat, bytes: seq<nat>, m: nat, n: nat, f: nat,
      row: seq<nat>, up: seq<nat>, px: seq<nat>)
    requires f <= 4 && n > 0 && |up| == |bytes| && m + n <= |bytes| && rp == rp0 + m && rp0 + |bytes| <= |raw|
      && raw[rp0..rp0 + |bytes|] == bytes
    requires (m == 0 || m >= n) && row == Unfiltered(f, n, bytes, up, m) && cur + n <= out.Length
      && px == out[cur..cur + n]
    requires PixelRebuilt(out, cur, raw, rp, n, f, LeftOf(row, m, n), up[m..m + n], LeftOf(up, m, n))
    ensures Shows(out, cur, px) && Unfiltered(f, n, bytes, up, m + n) == row + px
  {
    assert Unlock(0);
    var a, b, c := LeftOf(row, m, n), up[m..m + n], LeftOf(up, m, n);
    forall k | 0 <= k < n ensures px[k] == (bytes[m + k] + Predicted(f, a[k], b[k], c[k])) % 256 {
      assert bytes[m + k] == raw[rp + k];
      assert out[cur + k] == (raw[rp + k] + Predicted(f, a[k], b[k], c[k])) % 256;
    }
    PixelDone(f, n, bytes, up, m, px, row);
  }

  lemma ZerosAbove(first: bool, up: seq<nat>, m: nat, n: nat)
    requires n > 0 && m + n <= |up| && (first ==> up == Zeros(|up|))
    ensures first ==> up[m..m + n] == Zeros(n) && LeftOf(up, m, n) == Zeros(n)
  {}

  lemma AlphaNext(row: seq<nat>, px: seq<nat>, n: nat)
    requires n > 0 && |px| == n
    ensures WithAlpha(row + px, n) == WithAlpha(row, n) + (px + [255])
  {
    var all := row + px;
    assert all[..|all| - n] == row && all[|all| - n..] == px;
  }

  /** One pixel and its alpha sample. */
  method AlphaStep(out: array<nat>, start: nat, cur: nat, prior: int, above: int, raw: seq<nat>, rp: nat, fc: nat,
      n: nat, i: nat,
      ghost rp0: nat, ghost f: nat, ghost first: bool, ghost bytes: seq<nat>, ghost up: seq<nat>, ghost x: nat,
        ghost m: nat, ghost u: nat,
      ghost laid: seq<nat>, ghost m': nat, ghost cur': nat, ghost i': nat)
    requires n > 0 && laid == WithAlpha(up, n)
      && RowReady(out, start, prior, raw, rp0, fc, f, first, n, bytes, up, laid)
    requires AlphaSoFar(out, start, cur, f, n, bytes, up, i, x, m) && i < x && rp == rp0 + m && u == cur - start
      && above == prior + u
    requires m' == m + n && cur' == cur + n + 1 && i' == i + 1
    modifies out
    ensures AlphaSoFar(out, start, cur', f, n, bytes, up, i', x, m')
    ensures forall k :: 0 <= k < out.Length && !(start <= k < start + |laid|) ==> out[k] == old(out[k])
  {
    ghost var row := Unfiltered(f, n, bytes, up, m);
    ghost var px := AlphaPixel(out, start, cur, prior, above, raw, rp, fc, n, i, rp0, f, first, bytes, up, x, m, u);
    AlphaLength(row, n, i);
    PutAlpha(out, start, cur, n, WithAlpha(row, n), px);
    AlphaNext(row, px, n);
  }

  /** An opaque alpha sample after the n samples at cur. */
  method PutAlpha(out: array<nat>, start: nat, cur: nat, n: nat, ghost before: seq<nat>, ghost px: seq<nat>)
    requires cur == start + |before| && |px| == n && cur + n < out.Length
    requires Shows(out, start, before) && Shows(out, cur, px)
    modifies out
    ensures Shows(out, start, before + (px + [255]))
    ensures forall k :: 0 <= k < out.Length && k != cur + n ==> out[k] == old(out[k])
  {
    out[cur + n] := 255;
    ShowsMore(out, start, before, px, cur);
  }

  lemma ShowsMore(out: array<nat>, start: nat, laid: seq<nat>, px: seq<nat>, cur: nat)
    requires cur == start + |laid| && cur + |px| < out.Length && Shows(out, start, laid) && Shows(out, cur, px)
      && out[cur + |px|] == 255
    ensures Shows(out, start, laid + (px + [255]))
  {
    var all := laid + (px + [255]);
    forall k | 0 <= k < |all| ensures out[start + k] == all[k] {
      if |laid| <= k < |laid| + |px| { assert out[cur + (k - |laid|)] == px[k - |laid|]; }
    }
  }

  /** A row of x pixels with an alpha sample added to each. */
  method AlphaRow(out: array<nat>, start: nat, prior: int, raw: seq<nat>, rp0: nat, fc: nat, n: nat, x: nat,
      ghost f: nat, ghost first: bool, ghost bytes: seq<nat>, ghost up: seq<nat>, ghost laid: seq<nat>)
    requires n > 0 && laid == WithAlpha(up, n)
      && RowReady(out, start, prior, raw, rp0, fc, f, first, n, bytes, up, laid)
    requires |bytes| == Samples(x, n)
    modifies out
    ensures Shows(out, start, WithAlpha(Unfiltered(f, n, bytes, up, |bytes|), n))
    ensures forall k :: 0 <= k < out.Length && !(start <= k < start + |laid|) ==> out[k] == old(out[k])
  {
    var cur, above, rp := start, prior, rp0;
    ghost var m := 0;
    for i := 0 to x
      invariant RowReady(out, start, prior, raw, rp0, fc, f, first, n, bytes, up, laid) && cur >= start
      invariant AlphaSoFar(out, start, cur, f, n, bytes, up, i, x, m) && rp == rp0 + m && above == prior + (cur - start)
      invariant forall k :: 0 <= k < out.Length && !(start <= k < start + |laid|) ==> out[k] == old(out[k])
    {
      AlphaStep(out, start, cur, prior, above, raw, rp, fc, n, i, rp0, f, first, bytes, up, x, m, cur - start, laid,
        m + n, cur + n + 1, i + 1);
      assert RowReady(out, start, prior, raw, rp0, fc, f, first, n, bytes, up, laid);
      m := m + n;
      cur, above, rp := cur + n + 1, above + n + 1, rp + n;
    }
  }

  /** Decodes a row with either layout. */
  method DecodeRow(out: array<nat>, start: nat, prior: int, raw: seq<nat>, rp: nat, fc: nat, n: nat, outN: nat,
      x: nat, len: nat,
      ghost f: nat, ghost first: bool, ghost bytes: seq<nat>, ghost up: seq<nat>, ghost laid: seq<nat>)
    requires n > 0 && x > 0 && (outN == n || outN == n + 1) && laid == Layout(up, n, outN)
      && len == |bytes| == Samples(x, n)
    requires RowReady(out, start, prior, raw, rp, fc, f, first, n, bytes, up, laid)
    modifies out
    ensures Shows(out, start, Layout(Unfiltered(f, n, bytes, up, len), n, outN))
    ensures forall k :: 0 <= k < out.Length && !(start <= k < start + |laid|) ==> out[k] == old(out[k])
  {
    if outN == n {
      SamplesFewer(1, x, n);
      assert Samples(1, n) == Samples(0, n) + n;
      PlainRow(out, start, prior, raw, rp, fc, n, len, f, first, bytes, up);
    } else {
      AlphaRow(out, start, prior, raw, rp, fc, n, x, f, first, bytes, up, laid);
    }
  }

  // ----- the image -----

  lemma LayoutLength(row: seq<nat>, n: nat, outN: nat, x: nat)
    requires n > 0 && (outN == n || outN == n + 1) && |row| == Samples(x, n)
    ensures |Layout(row, n, outN)| == Samples(x, outN)
  {
    if outN != n { AlphaLength(row, n, x); }
  }

  /** The row above, in the memory that holds the rows so far. */
  lemma AboveRow(out: array<nat>, rows: seq<seq<nat>>, n: nat, outN: nat, x: nat, len: nat, start: nat, stride: nat)
    requires n > 0 && (outN == n || outN == n + 1) && len == Samples(x, n) && stride == Samples(x, outN)
      && Image(rows, len)
    requires Shows(out, 0, Laid(rows, n, outN)) && start == Samples(|rows|, stride)
    ensures rows != [] ==> start >= stride && Shows(out, start - stride, Layout(LastRow(rows, len), n, outN))
    ensures |Layout(LastRow(rows, len), n, outN)| == stride && |Laid(rows, n, outN)| == start
  {
    LaidLength(rows, n, outN, x);
    LayoutLength(LastRow(rows, len), n, outN, x);
    if rows != [] {
      var top, last := rows[..|rows| - 1], rows[|rows| - 1];
      LaidLength(top, n, outN, x);
      var all, u := Laid(rows, n, outN), |Laid(top, n, outN)|;
      assert all[u..u + stride] == Layout(last, n, outN);
      SliceShows(out, 0, all, u, stride, start - stride);
    }
  }

  lemma RowsShown(out: array<nat>, rows: seq<seq<nat>>, row: seq<nat>, n: nat, outN: nat, start: nat)
    requires n > 0 && Shows(out, 0, Laid(rows, n, outN)) && Shows(out, start, Layout(row, n, outN))
      && start == |Laid(rows, n, outN)|
    ensures Shows(out, 0, Laid(rows + [row], n, outN))
  {
    assert (rows + [row])[..|rows|] == rows;
    var laid, more := Laid(rows, n, outN), Layout(row, n, outN);
    forall k | 0 <= k < |laid + more| ensures out[0 + k] == (laid + more)[k] {
      if k >= |laid| { assert out[start + (k - |laid|)] == more[k - |laid|]; }
    }
  }

  lemma {:induction false} DecodedStops(n: nat, len: nat, raw: seq<nat>, j: nat, y: nat)
    requires n > 0 && j <= y && Decoded(n, len, raw, j).NotAnImage?
    ensures Decoded(n, len, raw, y).NotAnImage?
    decreases y
  {
    if j < y { DecodedStops(n, len, raw, j, y - 1); }
  }

  lemma {:induction false} DecodedNeeds(n: nat, len: nat, raw: seq<nat>, y: nat)
    requires n > 0 && Decoded(n, len, raw, y).Rows?
    ensures |raw| >= RowStart(len, y)
  {
    if y > 0 { DecodedNeeds(n, len, raw, y - 1); }
  }

  lemma {:induction false} RowStartGrows(len: nat, j: nat, y: nat)
    requires j <= y
    ensures RowStart(len, j) <= RowStart(len, y)
    decreases y
  {
    if j < y { RowStartGrows(len, j, y - 1); }
  }

  lemma {:induction false} RowStartIsProduct(len: nat, y: nat)
    ensures RowStart(len, y) == (len + 1) * y
  {
    if y > 0 {
      RowStartIsProduct(len, y - 1);
      assert (len + 1) * y == (len + 1) * (y - 1) + (len + 1);
    }
  }

  /** The rows so far, and where the next one starts in the memory and in the bytes. */
  ghost predicate RowsRead(size: nat, raw: seq<nat>, n: nat, outN: nat, x: nat, len: nat, stride: nat, j: nat, y: nat,
      rows: seq<seq<nat>>, start: nat, rp: nat)
  {
    && n > 0 && x > 0 && (outN == n || outN == n + 1) && len == Samples(x, n) && stride == Samples(x, outN) && j <= y
    && size == Samples(y, stride) && |raw| >= RowStart(len, y) && start == Samples(j, stride) && rp == RowStart(len, j)
    && Decoded(n, len, raw, j) == Rows(rows) && |rows| == j
  }

  lemma RowAdded(size: nat, raw: seq<nat>, n: nat, outN: nat, x: nat, len: nat, stride: nat, j: nat, y: nat,
      rows: seq<seq<nat>>, start: nat, rp: nat, row: seq<nat>)
    requires RowsRead(size, raw, n, outN, x, len, stride, j, y, rows, start, rp) && j < y && rp + 1 + len <= |raw|
    requires Decoded(n, len, raw, j + 1) == Rows(rows + [row])
    ensures RowsRead(size, raw, n, outN, x, len, stride, j + 1, y, rows + [row], start + stride, rp + 1 + len)
  {}

  /** The memory holds the rows so far. */
  ghost predicate RowsSoFar(out: array<nat>, raw: seq<nat>, n: nat, outN: nat, x: nat, len: nat, stride: nat, j: nat,
      y: nat,
      rows: seq<seq<nat>>, start: nat, rp: nat)
    reads out
  {
    RowsRead(out.Length, raw, n, outN, x, len, stride, j, y, rows, start, rp) && Shows(out, 0, Laid(rows, n, outN))
  }

  /** Decodes a row below those so far. */
  method RowInto(out: array<nat>, raw: seq<nat>, n: nat, outN: nat, x: nat, len: nat, stride: nat, first: bool,
      start: nat, rp: nat,
      filter: nat, ghost rows: seq<seq<nat>>, ghost bytes: seq<nat>, ghost row: seq<nat>)
    requires n > 0 && x > 0 && (outN == n || outN == n + 1) && len == Samples(x, n) && stride == Samples(x, outN)
    requires Image(rows, len) && Shows(out, 0, Laid(rows, n, outN)) && start == Samples(|rows|, stride)
      && start + stride <= out.Length
    requires rp + len <= |raw| && bytes == raw[rp..rp + len] && filter <= 4 && first == (rows == [])
    requires row == Unfiltered(filter, n, bytes, LastRow(rows, len), len)
    modifies out
    ensures Shows(out, 0, Laid(rows + [row], n, outN))
  {
    var fc := if first then FIRST_ROW_FILTER[filter] else filter;
    ghost var so, up := Laid(rows, n, outN), LastRow(rows, len);
    AboveRow(out, rows, n, outN, x, len, start, stride);
    DecodeRow(out, start, start - stride, raw, rp, fc, n, outN, x, len, filter, first, bytes, up, Layout(up, n, outN));
    assert Shows(out, 0, so);
    RowsShown(out, rows, row, n, outN, start);
  }

  /** Decodes row j; fails if there is no such filter. */
  method NextRow(out: array<nat>, raw: seq<nat>, n: nat, outN: nat, x: nat, len: nat, stride: nat, j: nat,
      start: nat, rp: nat,
      ghost y: nat, ghost rows: seq<seq<nat>>) returns (ok: bool, ghost rows': seq<seq<nat>>)
    requires RowsSoFar(out, raw, n, outN, x, len, stride, j, y, rows, start, rp) && j < y
    modifies out
    ensures ok ==> RowsSoFar(out, raw, n, outN, x, len, stride, j + 1, y, rows', start + stride, rp + 1 + len)
    ensures !ok ==> Decoded(n, len, raw, y).NotAnImage?
  {
    RowStartGrows(len, j + 1, y);
    SamplesFewer(j + 1, y, stride);
    rows' := rows;
    var filter := raw[rp];
    if filter > 4 {
      DecodedStops(n, len, raw, j + 1, y);
      return false, rows';
    }
    ghost var bytes := raw[rp + 1..rp + 1 + len];
    ghost var row := Unfiltered(filter, n, bytes, LastRow(rows, len), len);
    RowInto(out, raw, n, outN, x, len, stride, j == 0, start, rp + 1, filter, rows, bytes, row);
    PngFilter.NextRow(n, len, raw, j, rows, rp, filter, bytes, row);
    RowAdded(out.Length, raw, n, outN, x, len, stride, j, y, rows, start, rp, row);
    return true, rows + [row];
  }

  /** Decodes the rows one after another into memory of its own. */
  method DecodeRows(raw: seq<nat>, x: nat, y: nat, n: nat, outN: nat) returns (ok: bool, out: array<nat>)
    requires x > 0 && n > 0 && (outN == n || outN == n + 1)
    ensures fresh(out) && ok == Decoded(n, x * n, raw, y).Rows?
    ensures ok ==> out[..] == Laid(Decoded(n, x * n, raw, y).rows, n, outN)
  {
    var stride, len := x * outN, x * n;
    SamplesIsProduct(x, n);
    SamplesIsProduct(x, outN);
    SamplesIsProduct(y, stride);
    RowStartIsProduct(len, y);
    out := new nat[y * stride];
    if |raw| < (len + 1) * y {
      if Decoded(n, len, raw, y).Rows? { DecodedNeeds(n, len, raw, y); }
      return false, out;
    }
    var start: nat, rp: nat := 0, 0;
    ghost var rows := [];
    for j := 0 to y
      invariant RowsSoFar(out, raw, n, outN, x, len, stride, j, y, rows, start, rp)
    {
      ok, rows := NextRow(out, raw, n, outN, x, len, stride, j, start, rp, y, rows);
      if !ok {
        return;
      }
      start, rp := start + stride, rp + 1 + len;
    }
    ok := true;
    LaidLength(rows, n, outN, x);
    assert out[..] == Laid(rows, n, outN);
  }

  /** Reconstructs an image of x by y pixels, with n samples each, in memory of its own; outN - n samples
      are added to each pixel.  Succeeds exactly if there are enough bytes and a filter for each row, and then gives
      the image that the bytes are those of. */
  method CreateImageRaw(raw: seq<nat>, x: nat, y: nat, n: nat, outN: nat) returns (ok: bool, out: array<nat>)
    requires x > 0 && n > 0 && (outN == n || outN == n + 1)
    ensures fresh(out) && ok == Decoded(n, x * n, raw, y).Rows? == Complete(raw, x * n, y)
    ensures ok ==> var rows := Decoded(n, x * n, raw, y).rows;
      |rows| == y && Given(raw, rows, n, x * n) && out[..] == Laid(rows, n, outN)
  {
    ok, out := DecodeRows(raw, x, y, n, outN);
    DecodedMeans(n, x * n, raw, y);
  }
}
