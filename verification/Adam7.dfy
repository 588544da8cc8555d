/** The seven passes of an interlaced image (section 2.6 of RFC 2083). */
module Adam7 {
  import opened PngFilter
  import opened PngImage

  const XORIG: seq<nat> := [0, 4, 0, 2, 0, 1, 0]
  const YORIG: seq<nat> := [0, 0, 4, 0, 2, 0, 1]
  const XSPC: seq<nat> := [8, 8, 4, 4, 2, 2, 1]
  const YSPC: seq<nat> := [8, 8, 8, 4, 4, 2, 2]

  /** How many columns and rows of an image pass p has. */
  function PassWidth(p: nat, w: nat): nat
    requires p < 7
  {
    (w - XORIG[p] + XSPC[p] - 1) / XSPC[p]
  }

  function PassHeight(p: nat, h: nat): nat
    requires p < 7
  {
    (h - YORIG[p] + YSPC[p] - 1) / YSPC[p]
  }

  function ColumnOf(p: nat, i: nat): nat
    requires p < 7
  {
    i * XSPC[p] + XORIG[p]
  }

  function LineOf(p: nat, j: nat): nat
    requires p < 7
  {
    j * YSPC[p] + YORIG[p]
  }

  /** The pass that holds the pixel in column c of line l. */
  function PassOf(c: nat, l: nat): (p: nat)
    ensures p < 7
  {
    if l % 2 == 1 then 6
    else if c % 2 == 1 then 5
    else if l % 4 == 2 then 4
    else if c % 4 == 2 then 3
    else if l % 8 == 4 then 2
    else if c % 8 == 4 then 1
    else 0
  }

  /** Pixel i of row j of pass p is the one in column c of line l. */
  predicate Places(p: nat, i: nat, j: nat, c: nat, l: nat, w: nat, h: nat) {
    p < 7 && i < PassWidth(p, w) && j < PassHeight(p, h) && c == ColumnOf(p, i) && l == LineOf(p, j)
  }

  /** A pass has just the columns that lie in the image, and just the lines. */
  lemma ColumnInside(p: nat, i: nat, w: nat)
    requires p < 7
    ensures i < PassWidth(p, w) <==> ColumnOf(p, i) < w
  {
    Spaced(i, w, XORIG[p], XSPC[p]);
  }

  lemma LineInside(p: nat, j: nat, h: nat)
    requires p < 7
    ensures j < PassHeight(p, h) <==> LineOf(p, j) < h
  {
    Spaced(j, h, YORIG[p], YSPC[p]);
  }

  lemma Spaced(i: nat, w: nat, origin: nat, spacing: nat)
    requires (spacing == 1 || spacing == 2 || spacing == 4 || spacing == 8) && origin < spacing
    ensures i < (w - origin + spacing - 1) / spacing <==> i * spacing + origin < w
  {}

  lemma AddFours(k: nat, r: nat)
    ensures (4 * k + r) % 4 == r % 4
  {}

  lemma AddTwos(k: nat, r: nat)
    ensures (2 * k + r) % 2 == r % 2
  {}

  lemma AddEights(k: nat, r: nat)
    ensures (8 * k + r) % 8 == r % 8
  {}

  lemma Residues(c: nat)
    ensures c % 2 == c % 8 % 2 && c % 4 == c % 8 % 4
  {
    var q, r := c / 8, c % 8;
    AddFours(2 * q, r);
    AddTwos(4 * q, r);
    assert c == 4 * (2 * q) + r && c == 2 * (4 * q) + r;
  }

  lemma ResidueOf(i: nat, origin: nat, spacing: nat)
    requires spacing == 1 || spacing == 2 || spacing == 4 || spacing == 8
    requires origin < spacing
    ensures (i * spacing + origin) % spacing == origin
  {
    if spacing == 2 { AddTwos(i, origin); }
    if spacing == 4 { AddFours(i, origin); }
    if spacing == 8 { AddEights(i, origin); }
  }

  /** The residues of the columns and lines of a pass. */
  lemma PassOfResidues(p: nat, c: nat, l: nat)
    requires p < 7
    ensures PassOf(c, l) == p <==> c % XSPC[p] == XORIG[p] && l % YSPC[p] == YORIG[p]
  {
    Residues(c);
    Residues(l);
    var r, s := c % 8, l % 8;
    assert PassOf(c, l) == PassOf(r, s);
    SmallResidues(p, r, s);
    match p
    case 0 => case 1 => case 2 => case 3 => case 4 => case 5 => case 6 =>
  }

  lemma SmallResidues(p: nat, r: nat, s: nat)
    requires p < 7 && r < 8 && s < 8
    ensures PassOf(r, s) == p <==> r % XSPC[p] == XORIG[p] && s % YSPC[p] == YORIG[p]
  {
    match r
    case 0 => case 1 => case 2 => case 3 => case 4 => case 5 => case 6 => case 7 =>
  }

  lemma PassResidues(p: nat, i: nat, j: nat)
    requires p < 7
    ensures PassOf(ColumnOf(p, i), LineOf(p, j)) == p
  {
    ResidueOf(i, XORIG[p], XSPC[p]);
    ResidueOf(j, YORIG[p], YSPC[p]);
    PassOfResidues(p, ColumnOf(p, i), LineOf(p, j));
  }

  /** Every pixel of the image is in the pass that PassOf says. */
  lemma InSomePass(c: nat, l: nat, w: nat, h: nat) returns (i: nat, j: nat)
    requires c < w && l < h
    ensures Places(PassOf(c, l), i, j, c, l, w, h)
  {
    var p := PassOf(c, l);
    i, j := c / XSPC[p], l / YSPC[p];
    PassQuotients(p, c, l);
    ColumnInside(p, i, w);
    LineInside(p, j, h);
  }

  lemma Quotient(c: nat, origin: nat, spacing: nat)
    requires spacing > 0 && c % spacing == origin
    ensures c / spacing * spacing + origin == c
  {}

  lemma PassQuotients(p: nat, c: nat, l: nat)
    requires p == PassOf(c, l)
    ensures ColumnOf(p, c / XSPC[p]) == c && LineOf(p, l / YSPC[p]) == l
  {
    PassOfResidues(p, c, l);
    Quotient(c, XORIG[p], XSPC[p]);
    Quotient(l, YORIG[p], YSPC[p]);
  }

  /** What a pass holds is inside the image, and in that pass. */
  lemma PassInside(p: nat, i: nat, j: nat, c: nat, l: nat, w: nat, h: nat)
    requires Places(p, i, j, c, l, w, h)
    ensures c < w && l < h && PassOf(c, l) == p
  {
    ColumnInside(p, i, w);
    LineInside(p, j, h);
    PassResidues(p, i, j);
  }

  /** The passes partition the image: each pixel is in exactly one place of exactly one pass. */
  lemma Partition(p: nat, i: nat, j: nat, p': nat, i': nat, j': nat, c: nat, l: nat, w: nat, h: nat)
    requires Places(p, i, j, c, l, w, h) && Places(p', i', j', c, l, w, h)
    ensures p == p' && i == i' && j == j'
  {
    PassInside(p, i, j, c, l, w, h);
    PassInside(p', i', j', c, l, w, h);
    match p
    case 0 => case 1 => case 2 => case 3 => case 4 => case 5 => case 6 =>
  }

  // ----- the pattern of section 2.6 of RFC 2083 -----

  /** The pass of each pixel in a square of eight by eight, counted from one. */
  const PATTERN: seq<seq<nat>> := [
    [1, 6, 4, 6, 2, 6, 4, 6],
    [7, 7, 7, 7, 7, 7, 7, 7],
    [5, 6, 5, 6, 5, 6, 5, 6],
    [7, 7, 7, 7, 7, 7, 7, 7],
    [3, 6, 4, 6, 3, 6, 4, 6],
    [7, 7, 7, 7, 7, 7, 7, 7],
    [5, 6, 5, 6, 5, 6, 5, 6],
    [7, 7, 7, 7, 7, 7, 7, 7]]

  lemma PatternIsSquare(s: nat)
    requires s < 8
    ensures |PATTERN| == 8 && |PATTERN[s]| == 8
  {
    match s
    case 0 => case 1 => case 2 => case 3 => case 4 => case 5 => case 6 => case 7 =>
  }

  /** The pass that the pattern gives to the pixel in column c of line l, counted from zero. */
  function PatternAt(c: nat, l: nat): int {
    PatternIsSquare(l % 8);
    PATTERN[l % 8][c % 8] - 1
  }

  lemma SmallPattern(r: nat, s: nat)
    requires r < 8 && s < 8
    ensures |PATTERN| == 8 && |PATTERN[s]| == 8 && PATTERN[s][r] == PassOf(r, s) + 1
  {
    match s
    case 0 => match r { case 0 => case 1 => case 2 => case 3 => case 4 => case 5 => case 6 => case 7 => }
    case 1 => match r { case 0 => case 1 => case 2 => case 3 => case 4 => case 5 => case 6 => case 7 => }
    case 2 => match r { case 0 => case 1 => case 2 => case 3 => case 4 => case 5 => case 6 => case 7 => }
    case 3 => match r { case 0 => case 1 => case 2 => case 3 => case 4 => case 5 => case 6 => case 7 => }
    case 4 => match r { case 0 => case 1 => case 2 => case 3 => case 4 => case 5 => case 6 => case 7 => }
    case 5 => match r { case 0 => case 1 => case 2 => case 3 => case 4 => case 5 => case 6 => case 7 => }
    case 6 => match r { case 0 => case 1 => case 2 => case 3 => case 4 => case 5 => case 6 => case 7 => }
    case 7 => match r { case 0 => case 1 => case 2 => case 3 => case 4 => case 5 => case 6 => case 7 => }
  }

  /** The pass of a pixel is the one in the pattern. */
  lemma PassOfPattern(c: nat, l: nat)
    ensures PassOf(c, l) == PatternAt(c, l)
  {
    Residues(c);
    Residues(l);
    SmallPattern(c % 8, l % 8);
    assert PassOf(c, l) == PassOf(c % 8, l % 8);
  }

  /** Some line has a pixel of the pass in column c; some column has one in line l. */
  ghost predicate InColumn(p: nat, c: nat) {
    exists l: nat :: l < 8 && PatternAt(c, l) == p
  }

  ghost predicate InLine(p: nat, l: nat) {
    exists c: nat :: c < 8 && PatternAt(c, l) == p
  }

  /** How many of the columns before c, and of the lines before l, have pixels of the pass. */
  ghost function ColumnsBefore(p: nat, c: nat): nat {
    if c == 0 then 0 else ColumnsBefore(p, c - 1) + if InColumn(p, c - 1) then 1 else 0
  }

  ghost function LinesBefore(p: nat, l: nat): nat {
    if l == 0 then 0 else LinesBefore(p, l - 1) + if InLine(p, l - 1) then 1 else 0
  }

  lemma InColumnIs(p: nat, c: nat)
    requires p < 7
    ensures InColumn(p, c) <==> c % XSPC[p] == XORIG[p]
  {
    var y := YORIG[p];
    PassOfResidues(p, c, y);
    PassOfPattern(c, y);
    forall l: nat | l < 8 && PatternAt(c, l) == p ensures c % XSPC[p] == XORIG[p] {
      PassOfPattern(c, l);
      PassOfResidues(p, c, l);
    }
    match p
    case 0 => case 1 => case 2 => case 3 => case 4 => case 5 => case 6 =>
  }

  lemma InLineIs(p: nat, l: nat)
    requires p < 7
    ensures InLine(p, l) <==> l % YSPC[p] == YORIG[p]
  {
    var x := XORIG[p];
    PassOfResidues(p, x, l);
    PassOfPattern(x, l);
    forall c: nat | c < 8 && PatternAt(c, l) == p ensures l % YSPC[p] == YORIG[p] {
      PassOfPattern(c, l);
      PassOfResidues(p, c, l);
    }
    match p
    case 0 => case 1 => case 2 => case 3 => case 4 => case 5 => case 6 =>
  }

  lemma OneMore(w: nat, origin: nat, spacing: nat)
    requires (spacing == 1 || spacing == 2 || spacing == 4 || spacing == 8) && origin < spacing
    ensures (w + 1 - origin + spacing - 1) / spacing ==
      (w - origin + spacing - 1) / spacing + if w % spacing == origin then 1 else 0
  {}

  /** A pass is as wide as there are columns with pixels of it, and as high as there are lines. */
  lemma {:induction false} WidthCounts(p: nat, w: nat)
    requires p < 7
    ensures PassWidth(p, w) == ColumnsBefore(p, w)
  {
    if w > 0 {
      WidthCounts(p, w - 1);
      InColumnIs(p, w - 1);
      OneMore(w - 1, XORIG[p], XSPC[p]);
    }
  }

  lemma {:induction false} HeightCounts(p: nat, h: nat)
    requires p < 7
    ensures PassHeight(p, h) == LinesBefore(p, h)
  {
    if h > 0 {
      HeightCounts(p, h - 1);
      InLineIs(p, h - 1);
      OneMore(h - 1, YORIG[p], YSPC[p]);
    }
  }

  lemma Exact(i: nat, origin: nat, spacing: nat)
    requires (spacing == 1 || spacing == 2 || spacing == 4 || spacing == 8) && origin < spacing
    ensures (i * spacing + origin - origin + spacing - 1) / spacing == i
  {}

  /** Within its pass, a pixel comes after as many pixels of its row as there are columns of the pass before it, and
      after as many rows as there are lines. */
  lemma PlaceCounts(p: nat, i: nat, j: nat, c: nat, l: nat, w: nat, h: nat)
    requires Places(p, i, j, c, l, w, h)
    ensures p == PatternAt(c, l) && i == ColumnsBefore(p, c) && j == LinesBefore(p, l)
  {
    PassInside(p, i, j, c, l, w, h);
    PassOfPattern(c, l);
    WidthCounts(p, c);
    HeightCounts(p, l);
    Exact(i, XORIG[p], XSPC[p]);
    Exact(j, YORIG[p], YSPC[p]);
  }
}
