/** Scanline filters for 8-bit samples (section 6 of RFC 2083): applying and undoing them. */
module PngFilter {

  /** The three neighbours' guess a + b - c, and the neighbour nearest to it. */
  function Paeth(a: int, b: int, c: int): int {
    var p := a + b - c;
    var pa, pb, pc := Abs(p - a), Abs(p - b), Abs(p - c);
    if pa <= pb && pa <= pc then a else if pb <= pc then b else c
  }

  function Abs(x: int): int {
    if x < 0 then -x else x
  }

  /** Of the three, one that is nearest to a + b - c; the first of them in the order a, b, c. */
  lemma PaethIsNearest(a: int, b: int, c: int)
    ensures var r, p := Paeth(a, b, c), a + b - c;
      && r in {a, b, c} && Abs(p - r) <= Abs(p - a) && Abs(p - r) <= Abs(p - b) && Abs(p - r) <= Abs(p - c)
      && (Abs(p - a) == Abs(p - r) ==> r == a) && (r != a && Abs(p - b) == Abs(p - r) ==> r == b)
  {}

  /** What filter f takes for a sample with a to its left, b above it and c above a. */
  function Predicted(f: nat, a: nat, b: nat, c: nat): (r: nat)
    requires f <= 4
  {
    if f == 0 then 0 else if f == 1 then a else if f == 2 then b else if f == 3 then (a + b) / 2 else Paeth(a, b, c)
  }

  ghost predicate AreSamples(s: seq<nat>) {
    forall i :: 0 <= i < |s| ==> s[i] < 256
  }

  /** The sample n places back, or zero before the start. */
  function Back(s: seq<nat>, i: nat, n: nat): nat
    requires i <= |s| && n > 0
  {
    if i < n then 0 else s[i - n]
  }

  /** The first m bytes of the filtered row; n is the number of samples of a pixel. */
  function Filtered(f: nat, n: nat, row: seq<nat>, prior: seq<nat>, m: nat): (r: seq<nat>)
    requires f <= 4 && n > 0 && |prior| == |row| && m <= |row|
    ensures |r| == m && AreSamples(r)
  {
    if m == 0 then []
    else
      var i := m - 1;
      Filtered(f, n, row, prior, i) + [(row[i] - Predicted(f, Back(row, i, n), prior[i], Back(prior, i, n))) % 256]
  }

  /** The first m samples of the row that the bytes stand for. */
  function Unfiltered(f: nat, n: nat, bytes: seq<nat>, prior: seq<nat>, m: nat): (r: seq<nat>)
    requires f <= 4 && n > 0 && |prior| == |bytes| && m <= |bytes|
    ensures |r| == m && AreSamples(r)
  {
    if m == 0 then []
    else
      var i := m - 1;
      var before := Unfiltered(f, n, bytes, prior, i);
      before + [(bytes[i] + Predicted(f, Back(before, i, n), prior[i], Back(prior, i, n))) % 256]
  }

  lemma {:induction false} FilteredAt(f: nat, n: nat, row: seq<nat>, prior: seq<nat>, m: nat, i: nat)
    requires f <= 4 && n > 0 && |prior| == |row| && i < m <= |row|
    ensures Filtered(f, n, row, prior, m)[i] ==
      (row[i] - Predicted(f, Back(row, i, n), prior[i], Back(prior, i, n))) % 256
  {
    if i < m - 1 { FilteredAt(f, n, row, prior, m - 1, i); }
  }

  lemma AddBack(x: nat, p: nat)
    requires x < 256
    ensures var d: int := (x - p) % 256; (d + p) % 256 == x
  {}

  /** Undoing a filter gives the row back, whatever the filter and the row above. */
  lemma {:induction false} RowRoundTrip(f: nat, n: nat, row: seq<nat>, prior: seq<nat>, bytes: seq<nat>, m: nat)
    requires f <= 4 && n > 0 && |prior| == |row| && m <= |row| && AreSamples(row)
      && bytes == Filtered(f, n, row, prior, |row|)
    ensures Unfiltered(f, n, bytes, prior, m) == row[..m]
  {
    if m > 0 {
      var i := m - 1;
      RowRoundTrip(f, n, row, prior, bytes, i);
      FilteredAt(f, n, row, prior, |row|, i);
      var p := Predicted(f, Back(row, i, n), prior[i], Back(prior, i, n));
      assert Back(row[..i], i, n) == Back(row, i, n);
      AddBack(row[i], p);
      assert row[..m] == row[..i] + [row[i]];
    }
  }

  // ----- the first row -----

  // The decoder's own filters for a row with no row above it.
  const AVG_FIRST := 5
  const PAETH_FIRST := 6

  const FIRST_ROW_FILTER: seq<nat> := [0, 1, 0, AVG_FIRST, PAETH_FIRST]

  /** What a filter takes for a sample, the decoder's own filters included. */
  function Guess(f: nat, a: nat, b: nat, c: nat): (r: nat)
    requires f <= 6
  {
    if f <= 4 then Predicted(f, a, b, c) else if f == AVG_FIRST then a / 2 else Paeth(a, 0, 0)
  }

  /** The substitutes do what the filters do below a row of zeros. */
  lemma FirstRowFilter(f: nat, a: nat)
    requires f <= 4
    ensures Guess(FIRST_ROW_FILTER[f], a, 0, 0) == Predicted(f, a, 0, 0) && FIRST_ROW_FILTER[f] !in {2, 3, 4}
  {}

  /** At the start of a row the Paeth filter takes the sample above, and so it does here. */
  lemma PaethAtStart(b: nat)
    ensures Paeth(0, b, 0) == b && Paeth(b, 0, 0) == b
  {}

  // ----- images -----

  function Zeros(n: nat): (r: seq<nat>)
    ensures |r| == n
  {
    seq(n, _ => 0)
  }

  function LastRow(rows: seq<seq<nat>>, len: nat): seq<nat> {
    if rows == [] then Zeros(len) else rows[|rows| - 1]
  }

  /** Rows of one length, and a filter for each of them. */
  ghost predicate Image(rows: seq<seq<nat>>, len: nat) {
    forall j :: 0 <= j < |rows| ==> |rows[j]| == len && AreSamples(rows[j])
  }

  ghost predicate Filters(fs: seq<nat>) {
    forall j :: 0 <= j < |fs| ==> fs[j] <= 4
  }

  /** The bytes of an image: for each row the filter and the filtered row. */
  function Encoded(n: nat, len: nat, rows: seq<seq<nat>>, fs: seq<nat>): seq<nat>
    requires n > 0 && |fs| == |rows| && (forall j :: 0 <= j < |rows| ==> |rows[j]| == len) && Filters(fs)
  {
    if rows == [] then []
    else
      var j := |rows| - 1;
      Encoded(n, len, rows[..j], fs[..j]) + ([fs[j]] + Filtered(fs[j], n, rows[j], LastRow(rows[..j], len), len))
  }

  datatype Decoding = NotAnImage | Rows(rows: seq<seq<nat>>)

  /** The rows that the first y * (len + 1) bytes stand for. */
  function Decoded(n: nat, len: nat, raw: seq<nat>, y: nat): (r: Decoding)
    requires n > 0
    ensures r.Rows? ==> |r.rows| == y && Image(r.rows, len)
  {
    if y == 0 then Rows([])
    else
      var before, at := Decoded(n, len, raw, y - 1), RowStart(len, y - 1);
      if before.NotAnImage? || at + 1 + len > |raw| || raw[at] > 4 then NotAnImage
      else Rows(before.rows + [Unfiltered(raw[at], n, raw[at + 1..at + 1 + len], LastRow(before.rows, len), len)])
  }

  /** Where row j starts, with its filter. */
  function RowStart(len: nat, j: nat): nat {
    if j == 0 then 0 else RowStart(len, j - 1) + (1 + len)
  }

  lemma {:induction false} EncodedLength(n: nat, len: nat, rows: seq<seq<nat>>, fs: seq<nat>)
    requires n > 0 && |fs| == |rows| && (forall j :: 0 <= j < |rows| ==> |rows[j]| == len) && Filters(fs)
    ensures |Encoded(n, len, rows, fs)| == RowStart(len, |rows|)
  {
    if rows != [] {
      var j := |rows| - 1;
      EncodedLength(n, len, rows[..j], fs[..j]);
    }
  }

  lemma {:induction false} DecodedPrefix(n: nat, len: nat, raw: seq<nat>, more: seq<nat>, y: nat)
    requires n > 0 && |raw| >= RowStart(len, y)
    ensures Decoded(n, len, raw + more, y) == Decoded(n, len, raw, y)
  {
    if y > 0 {
      var at := RowStart(len, y - 1);
      DecodedPrefix(n, len, raw, more, y - 1);
      assert (raw + more)[at + 1..at + 1 + len] == raw[at + 1..at + 1 + len];
    }
  }

  lemma NextRow(n: nat, len: nat, raw: seq<nat>, y: nat, before: seq<seq<nat>>, at: nat, f: nat, bytes: seq<nat>,
      row: seq<nat>)
    requires n > 0 && Decoded(n, len, raw, y) == Rows(before) && at == RowStart(len, y) && at + 1 + len <= |raw|
    requires f == raw[at] <= 4 && bytes == raw[at + 1..at + 1 + len]
      && row == Unfiltered(f, n, bytes, LastRow(before, len), len)
    ensures Decoded(n, len, raw, y + 1) == Rows(before + [row])
  {}

  lemma RowInside(f: nat, row: seq<nat>, raw: seq<nat>, more: seq<nat>, all: seq<nat>, at: nat, len: nat)
    requires all == raw + ([f] + row) + more && at == |raw| && len == |row|
    ensures |all| >= at + 1 + len && all[at] == f && all[at + 1..at + 1 + len] == row
  {}

  lemma Regroup(raw: seq<nat>, row: seq<nat>, more: seq<nat>)
    ensures raw + row + more == raw + (row + more)
  {}

  /** Decoding one more row gives that row. */
  lemma LastRoundTrip(n: nat, len: nat, top: seq<seq<nat>>, f: nat, last: seq<nat>, raw: seq<nat>, row: seq<nat>,
      all: seq<nat>, more: seq<nat>)
    requires n > 0 && f <= 4 && |last| == len && AreSamples(last) && Image(top, len)
    requires row == Filtered(f, n, last, LastRow(top, len), len) && all == raw + ([f] + row) + more
    requires Decoded(n, len, all, |top|) == Rows(top) && |raw| == RowStart(len, |top|)
    ensures Decoded(n, len, all, |top| + 1) == Rows(top + [last])
  {
    var y, at, prior := |top|, |raw|, LastRow(top, len);
    RowInside(f, row, raw, more, all, at, len);
    assert Unfiltered(f, n, row, prior, len) == last by {
      RowRoundTrip(f, n, last, prior, row, len);
      assert last[..len] == last;
    }
    NextRow(n, len, all, y, top, at, f, row, last);
  }

  /** Decoding gives the image back, whatever filters were chosen and whatever follows. */
  lemma {:induction false} ImageRoundTrip(n: nat, len: nat, rows: seq<seq<nat>>, fs: seq<nat>, more: seq<nat>)
    requires n > 0 && |fs| == |rows| && Image(rows, len) && Filters(fs)
    ensures Decoded(n, len, Encoded(n, len, rows, fs) + more, |rows|) == Rows(rows)
    decreases |rows|
  {
    if rows != [] {
      var j := |rows| - 1;
      var top, f := rows[..j], fs[j];
      var row := Filtered(f, n, rows[j], LastRow(top, len), len);
      ImageRoundTrip(n, len, top, fs[..j], [f] + row + more);
      EncodedLength(n, len, top, fs[..j]);
      var raw := Encoded(n, len, top, fs[..j]);
      Regroup(raw, [f] + row, more);
      LastRoundTrip(n, len, top, f, rows[j], raw, row, raw + ([f] + row) + more, more);
      assert rows == top + [rows[j]];
    }
  }

  // ----- the filters as section 6 of RFC 2083 gives them -----

  /** What filter f predicts for a sample with a to its left, b above it and c above a: nothing, the left one, the one
      above, half their sum rounded down, or of the three the nearest to a + b - c, ties going to a, then to b. */
  ghost predicate Predicts(f: nat, a: nat, b: nat, c: nat, r: int) {
    match f
    case 0 => r == 0
    case 1 => r == a
    case 2 => r == b
    case 3 => 2 * r <= a + b < 2 * r + 2
    case 4 =>
      var p := a + b - c;
      && r in {a, b, c} && Abs(p - r) <= Abs(p - a) && Abs(p - r) <= Abs(p - b) && Abs(p - r) <= Abs(p - c)
      && (Abs(p - a) == Abs(p - r) ==> r == a) && (r != a && Abs(p - b) == Abs(p - r) ==> r == b)
    case _ => false
  }

  lemma PredictsExactly(f: nat, a: nat, b: nat, c: nat, r: int)
    ensures Predicts(f, a, b, c, r) <==> f <= 4 && r == Predicted(f, a, b, c)
  {
    if f == 4 { PaethIsNearest(a, b, c); }
  }

  /** Sample i of row j of an image, or zero to the left of the image and above it. */
  function SampleAt(rows: seq<seq<nat>>, j: int, i: int): nat {
    if 0 <= j < |rows| && 0 <= i < |rows[j]| then rows[j][i] else 0
  }

  /** The byte is the sample minus what the filter predicts, modulo 256. */
  ghost predicate Explains(f: nat, a: nat, b: nat, c: nat, sample: nat, byte: nat) {
    exists r :: Predicts(f, a, b, c, r) && (sample - r) % 256 == byte % 256
  }

  /** The byte after the filter of row j and i more stands for sample i, whose pixel has n samples. */
  ghost predicate SampleGiven(raw: seq<nat>, rows: seq<seq<nat>>, n: nat, len: nat, j: nat, i: nat)
    requires j * (len + 1) + 1 + i < |raw|
  {
    Explains(raw[j * (len + 1)], SampleAt(rows, j, i - n), SampleAt(rows, j - 1, i), SampleAt(rows, j - 1, i - n),
             SampleAt(rows, j, i), raw[j * (len + 1) + 1 + i])
  }

  ghost predicate RowGiven(raw: seq<nat>, rows: seq<seq<nat>>, n: nat, len: nat, j: nat)
    requires j < |rows|
  {
    && j * (len + 1) + 1 + len <= |raw| && raw[j * (len + 1)] <= 4 && |rows[j]| == len && AreSamples(rows[j])
    && forall i: nat :: i < len ==> SampleGiven(raw, rows, n, len, j, i)
  }

  /** The bytes are those of the image. */
  ghost predicate Given(raw: seq<nat>, rows: seq<seq<nat>>, n: nat, len: nat) {
    forall j: nat :: j < |rows| ==> RowGiven(raw, rows, n, len, j)
  }

  lemma SampleExplained(f: nat, a: nat, b: nat, c: nat, sample: nat, byte: nat)
    requires f <= 4 && sample < 256
    ensures Explains(f, a, b, c, sample, byte) <==> sample == (byte + Predicted(f, a, b, c)) % 256
  {
    var r := Predicted(f, a, b, c);
    PredictsExactly(f, a, b, c, r);
    Subtracted(sample, r, byte);
    if s :| Predicts(f, a, b, c, s) && (sample - s) % 256 == byte % 256 { PredictsExactly(f, a, b, c, s); }
  }

  lemma Subtracted(sample: nat, r: nat, byte: nat)
    requires sample < 256
    ensures (sample - r) % 256 == byte % 256 <==> sample == (byte + r) % 256
  {}

  lemma {:induction false} UnfilteredAt(f: nat, n: nat, bytes: seq<nat>, prior: seq<nat>, m: nat, i: nat)
    requires f <= 4 && n > 0 && |prior| == |bytes| && i < m <= |bytes|
    ensures var row := Unfiltered(f, n, bytes, prior, m);
      row[i] == (bytes[i] + Predicted(f, Back(row, i, n), prior[i], Back(prior, i, n))) % 256
  {
    if i < m - 1 { UnfilteredAt(f, n, bytes, prior, m - 1, i); }
  }

  /** Each sample is its byte and what the filter predicts, modulo 256. */
  ghost predicate Follows(f: nat, n: nat, bytes: seq<nat>, prior: seq<nat>, row: seq<nat>)
    requires f <= 4 && n > 0 && |prior| == |bytes| == |row|
  {
    forall i: nat :: i < |row| ==>
      row[i] == (bytes[i] + Predicted(f, Back(row, i, n), prior[i], Back(prior, i, n))) % 256
  }

  lemma {:induction false} OnlyUnfiltered(f: nat, n: nat, bytes: seq<nat>, prior: seq<nat>, row: seq<nat>, m: nat)
    requires f <= 4 && n > 0 && |prior| == |bytes| == |row| && m <= |row| && Follows(f, n, bytes, prior, row)
    ensures Unfiltered(f, n, bytes, prior, m) == row[..m]
  {
    if m > 0 {
      OnlyUnfiltered(f, n, bytes, prior, row, m - 1);
      assert Back(row[..m - 1], m - 1, n) == Back(row, m - 1, n);
    }
  }

  lemma FollowsExactly(f: nat, n: nat, bytes: seq<nat>, prior: seq<nat>, row: seq<nat>)
    requires f <= 4 && n > 0 && |prior| == |bytes| == |row|
    ensures Follows(f, n, bytes, prior, row) <==> row == Unfiltered(f, n, bytes, prior, |row|)
  {
    if Follows(f, n, bytes, prior, row) {
      OnlyUnfiltered(f, n, bytes, prior, row, |row|);
      assert row[..|row|] == row;
    }
    if row == Unfiltered(f, n, bytes, prior, |row|) {
      forall i: nat | i < |row|
        ensures row[i] == (bytes[i] + Predicted(f, Back(row, i, n), prior[i], Back(prior, i, n))) % 256
      {
        UnfilteredAt(f, n, bytes, prior, |row|, i);
      }
    }
  }

  /** Row k of the image, or what stands for it above the image. */
  ghost predicate Reads(rows: seq<seq<nat>>, k: int, prior: seq<nat>) {
    forall i :: i < |prior| ==> SampleAt(rows, k, i) == if i < 0 then 0 else prior[i]
  }

  lemma RowAbove(rows: seq<seq<nat>>, j: nat, top: seq<seq<nat>>, len: nat)
    requires j < |rows| && top == rows[..j] && Image(top, len)
    ensures Reads(rows, j - 1, LastRow(top, len))
  {
    var prior := LastRow(top, len);
    if j == 0 {
      assert prior == Zeros(len);
    } else {
      assert prior == top[j - 1] == rows[j - 1];
    }
  }

  lemma SampleFollows(raw: seq<nat>, rows: seq<seq<nat>>, n: nat, len: nat, j: nat, at: nat, prior: seq<nat>,
      bytes: seq<nat>, i: nat)
    requires n > 0 && j < |rows| && at == j * (len + 1) && at + 1 + len <= |raw| && bytes == raw[at + 1..at + 1 + len]
    requires |prior| == len && Reads(rows, j - 1, prior)
    requires i < len && raw[at] <= 4 && |rows[j]| == len && rows[j][i] < 256
    ensures SampleGiven(raw, rows, n, len, j, i) <==>
      rows[j][i] == (bytes[i] + Predicted(raw[at], Back(rows[j], i, n), prior[i], Back(prior, i, n))) % 256
  {
    assert bytes[i] == raw[at + 1 + i];
    SampleExplained(raw[at], Back(rows[j], i, n), prior[i], Back(prior, i, n), rows[j][i], bytes[i]);
  }

  lemma RowFollows(raw: seq<nat>, rows: seq<seq<nat>>, n: nat, len: nat, j: nat, at: nat, prior: seq<nat>,
      bytes: seq<nat>)
    requires n > 0 && j < |rows| && at == j * (len + 1) && at + 1 + len <= |raw| && bytes == raw[at + 1..at + 1 + len]
    requires |prior| == len && Reads(rows, j - 1, prior)
    ensures RowGiven(raw, rows, n, len, j) <==>
      raw[at] <= 4 && |rows[j]| == len && AreSamples(rows[j]) && Follows(raw[at], n, bytes, prior, rows[j])
  {
    var f, row := raw[at], rows[j];
    if f <= 4 && |row| == len && AreSamples(row) {
      forall i: nat | i < len
        ensures SampleGiven(raw, rows, n, len, j, i) <==>
          row[i] == (bytes[i] + Predicted(f, Back(row, i, n), prior[i], Back(prior, i, n))) % 256
      {
        SampleFollows(raw, rows, n, len, j, at, prior, bytes, i);
      }
    }
  }

  /** A row is given exactly if it is the unfiltered one. */
  lemma RowGivenExactly(raw: seq<nat>, rows: seq<seq<nat>>, n: nat, len: nat, j: nat, at: nat, top: seq<seq<nat>>,
      bytes: seq<nat>)
    requires n > 0 && j < |rows| && at == j * (len + 1) && at + 1 + len <= |raw| && bytes == raw[at + 1..at + 1 + len]
    requires top == rows[..j] && Image(top, len)
    ensures RowGiven(raw, rows, n, len, j) <==>
      raw[at] <= 4 && rows[j] == Unfiltered(raw[at], n, bytes, LastRow(top, len), len)
  {
    var f, row, prior := raw[at], rows[j], LastRow(top, len);
    RowAbove(rows, j, top, len);
    RowFollows(raw, rows, n, len, j, at, prior, bytes);
    if f <= 4 && |row| == len { FollowsExactly(f, n, bytes, prior, row); }
  }

  lemma {:induction false} RowStartAt(len: nat, y: nat)
    ensures RowStart(len, y) == y * (len + 1)
  {
    if y > 0 {
      RowStartAt(len, y - 1);
      assert y * (len + 1) == (y - 1) * (len + 1) + (len + 1);
    }
  }

  lemma RowGivenPrefix(raw: seq<nat>, rows: seq<seq<nat>>, top: seq<seq<nat>>, n: nat, len: nat, j: nat)
    requires top <= rows && j < |top|
    ensures RowGiven(raw, top, n, len, j) <==> RowGiven(raw, rows, n, len, j)
  {
    forall i: nat | j * (len + 1) + 1 + i < |raw|
      ensures SampleGiven(raw, top, n, len, j, i) <==> SampleGiven(raw, rows, n, len, j, i)
    {
    }
  }

  lemma GivenNext(raw: seq<nat>, rows: seq<seq<nat>>, n: nat, len: nat, k: nat)
    requires |rows| == k + 1
    ensures Given(raw, rows, n, len) <==> Given(raw, rows[..k], n, len) && RowGiven(raw, rows, n, len, k)
  {
    forall j: nat | j < k ensures RowGiven(raw, rows[..k], n, len, j) <==> RowGiven(raw, rows, n, len, j) {
      RowGivenPrefix(raw, rows, rows[..k], n, len, j);
    }
  }

  lemma DecodedNext(n: nat, len: nat, raw: seq<nat>, k: nat, rows: seq<seq<nat>>, at: nat)
    requires n > 0 && |rows| == k + 1 && at == RowStart(len, k)
    ensures Decoded(n, len, raw, k + 1) == Rows(rows) <==>
      && Decoded(n, len, raw, k) == Rows(rows[..k]) && at + 1 + len <= |raw| && raw[at] <= 4
      && rows[k] == Unfiltered(raw[at], n, raw[at + 1..at + 1 + len], LastRow(rows[..k], len), len)
  {
    assert rows == rows[..k] + [rows[k]];
    var before := Decoded(n, len, raw, k);
    if before.Rows? { assert forall row :: (before.rows + [row])[..k] == before.rows; }
  }

  /** What is decoded is the one image that the bytes are those of. */
  lemma {:induction false} DecodedIsGiven(n: nat, len: nat, raw: seq<nat>, y: nat, rows: seq<seq<nat>>)
    requires n > 0 && |rows| == y
    ensures Decoded(n, len, raw, y) == Rows(rows) <==> Given(raw, rows, n, len)
    decreases y
  {
    if y > 0 {
      var k := y - 1;
      var at := k * (len + 1);
      RowStartAt(len, k);
      DecodedIsGiven(n, len, raw, k, rows[..k]);
      DecodedNext(n, len, raw, k, rows, at);
      GivenNext(raw, rows, n, len, k);
      if at + 1 + len <= |raw| && Decoded(n, len, raw, k) == Rows(rows[..k]) {
        RowGivenExactly(raw, rows, n, len, k, at, rows[..k], raw[at + 1..at + 1 + len]);
      }
    }
  }

  /** There are enough bytes for row j, and there is a filter of its number. */
  predicate RowComplete(raw: seq<nat>, len: nat, j: nat) {
    j * (len + 1) + 1 + len <= |raw| && raw[j * (len + 1)] <= 4
  }

  ghost predicate Complete(raw: seq<nat>, len: nat, y: nat) {
    forall j: nat :: j < y ==> RowComplete(raw, len, j)
  }

  /** Something is decoded exactly if there are enough bytes, and a filter for each row. */
  lemma {:induction false} DecodedExactly(n: nat, len: nat, raw: seq<nat>, y: nat)
    requires n > 0
    ensures Decoded(n, len, raw, y).Rows? <==> Complete(raw, len, y)
  {
    if y > 0 {
      var k := y - 1;
      DecodedExactly(n, len, raw, k);
      RowStartAt(len, k);
      CompleteNext(raw, len, k);
    }
  }

  lemma CompleteNext(raw: seq<nat>, len: nat, k: nat)
    ensures Complete(raw, len, k + 1) <==> Complete(raw, len, k) && RowComplete(raw, len, k)
  {}

  lemma DecodedMeans(n: nat, len: nat, raw: seq<nat>, y: nat)
    requires n > 0
    ensures var r := Decoded(n, len, raw, y);
      (r.Rows? <==> Complete(raw, len, y)) && (r.Rows? ==> |r.rows| == y && Given(raw, r.rows, n, len))
  {
    DecodedExactly(n, len, raw, y);
    var r := Decoded(n, len, raw, y);
    if r.Rows? { DecodedIsGiven(n, len, raw, y, r.rows); }
  }
}
