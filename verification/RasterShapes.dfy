/**
 Shapes and places of modules in the picture, in terms of the style's own fields
 (qr/round.go).
 */
module RasterShapes {
  import opened Raster
  import opened RasterTheorems

  // ---- Quarter circles ------------------------------------------------------------------------

  function Square(n: int): int {
    n * n
  }

  /** A pixel of the cell lies beyond the quarter circle of radius r in one of its four corners. */
  predicate BeyondArc(c: Cell, r: int, x: int, y: int) {
    var left, right, top, bottom := c.x + r, c.x + c.w - 1 - r, c.y + r, c.y + c.h - 1 - r;
    || (x < left && y < top && Square(left - x) + Square(top - y) > Square(r))
    || (x > right && y < top && Square(x - right) + Square(top - y) > Square(r))
    || (x < left && y > bottom && Square(left - x) + Square(y - bottom) > Square(r))
    || (x > right && y > bottom && Square(x - right) + Square(y - bottom) > Square(r))
  }

  lemma SquareGrows(a: int, b: int)
    requires 0 <= a <= b
    ensures Square(a) <= Square(b)
  {
    assert b * b - a * a == (b - a) * (b + a);
  }

  /** The nearer corner decides. */
  lemma NearestDecides(a: int, b: int, c: int, d: int, r: int)
    requires a >= b && c >= d
    ensures (a > 0 && c > 0 && Square(a) + Square(c) > Square(r)) <==>
      || (a > 0 && c > 0 && Square(a) + Square(c) > Square(r))
      || (b > 0 && c > 0 && Square(b) + Square(c) > Square(r))
      || (a > 0 && d > 0 && Square(a) + Square(d) > Square(r))
      || (b > 0 && d > 0 && Square(b) + Square(d) > Square(r))
  {
    hide Square;
    if b > 0 { SquareGrows(b, a); }
    if d > 0 { SquareGrows(d, c); }
  }

  lemma ArcOfCell(c: Cell, r: int, x: int, y: int)
    ensures OutsideArc(Min(x - c.x, c.w - 1 - (x - c.x)), Min(y - c.y, c.h - 1 - (y - c.y)), r) <==> BeyondArc(c, r, x, y)
  {
    hide Square;
    var l, g := c.x + r - x, x - (c.x + c.w - 1 - r);
    var t, b := c.y + r - y, y - (c.y + c.h - 1 - r);
    var a, o := if l >= g then l else g, if l >= g then g else l;
    var u, v := if t >= b then t else b, if t >= b then b else t;
    NearestDecides(a, o, u, v, r);
    OutsideIs(r - a, r - u, r);
    assert Min(x - c.x, c.w - 1 - (x - c.x)) == r - a && Min(y - c.y, c.h - 1 - (y - c.y)) == r - u;
  }

  lemma OutsideIs(dx: int, dy: int, r: int)
    ensures OutsideArc(dx, dy, r) <==> r - dx > 0 && r - dy > 0 && Square(r - dx) + Square(r - dy) > Square(r)
  {}

  // ---- Modules ------------------------------------------------------------------------------------

  /**
   The radius of a module's arcs in pixels, for a shorter side of `side` pixels: none unless the
   style is "blob" or "rounded"; the nearest to the set part of the side; when none is set, half
   the side for "blob" and a quarter for "rounded"; halves are rounded up.
   */
  predicate ArcRadius(style: Style, side: int, r: int) {
    if style.moduleStyle != "blob" && style.moduleStyle != "rounded" then r == 0
    else if style.moduleRadius > 0.0 then r as real - 0.5 <= side as real * style.moduleRadius < r as real + 0.5
    else if style.moduleStyle == "blob" then 2 * r <= side + 1 < 2 * r + 2
    else 4 * r <= side + 2 < 4 * r + 4
  }

  lemma NearestInt(x: real)
    ensures Rounded(x) as real - 0.5 <= x < Rounded(x) as real + 0.5
  {}

  lemma RadiusExists(style: Style, c: Cell)
    requires c.w >= 1 && c.h >= 1
    ensures ArcRadius(style, Min(c.w, c.h), PixelRadius(c, CellRadius(style)))
  {
    var side := Min(c.w, c.h);
    var radius := CellRadius(style);
    if radius > 0.0 {
      NearestInt(Share(side, radius));
      hide Rounded;
      if style.moduleRadius <= 0.0 { PartOfSide(side); }
    }
  }

  lemma RadiusIs(style: Style, c: Cell, r: int)
    requires c.w >= 1 && c.h >= 1 && ArcRadius(style, Min(c.w, c.h), r)
    ensures PixelRadius(c, CellRadius(style)) == r
  {
    RadiusExists(style, c);
    hide PixelRadius, CellRadius;
  }

  lemma PartOfSide(side: int)
    ensures Share(side, 0.5) == side as real / 2.0 && Share(side, 0.25) == side as real / 4.0
  {}

  /**
   A dark module inks exactly the pixels of its cell within its arcs, whose radius follows from
   the style's fields; every other style fills the cell.
   */
  lemma ModuleShape(m: Matrix, size: nat, style: Style, i: nat, j: nat, x: int, y: int, r: int)
    requires i < |m| && j < |m| && m[j][i] && size >= Total(m, style) && CornerInQuietZone(m, size, style)
    requires var c := ModuleCell(m, size, style, i, j); InCell(c, x, y) && ArcRadius(style, Min(c.w, c.h), r)
    ensures Picture(m, size, style, x, y) <==> !BeyondArc(ModuleCell(m, size, style, i, j), r, x, y)
  {
    hide Edge, OutsideArc, CellRadius, PixelRadius, InkedSoFar, Cleared, BeyondArc, ArcRadius;
    var c := ModuleCell(m, size, style, i, j);
    CellSpan(m, size, style, i, j);
    CellDecides(m, size, style, i, j, x, y);
    CellInSymbol(m, size, style, i, j, x, y);
    CornersSpareSymbol(m, size, style, x, y);
    RadiusIs(style, c, r);
    ArcOfCell(c, r, x, y);
    RadiusNatural(style, Min(c.w, c.h), r);
    if r == 0 { NothingBeyond(c, x, y); }
  }

  lemma RadiusNatural(style: Style, side: int, r: int)
    requires ArcRadius(style, side, r) && side >= 1
    ensures r >= 0
  {
    if style.moduleRadius > 0.0 { assert side as real * style.moduleRadius > 0.0; }
  }

  lemma NothingBeyond(c: Cell, x: int, y: int)
    requires InCell(c, x, y)
    ensures !BeyondArc(c, 0, x, y)
  {}

  /** The corner pixel of a cell is clear exactly when there are arcs at all. */
  lemma CellCorner(c: Cell, r: int)
    requires c.w >= 1 && c.h >= 1 && r >= 0
    ensures BeyondArc(c, r, c.x, c.y) <==> r > 0
  {
    hide Square;
    if r > 0 {
      SquarePositive(r);
    } else {
      NothingBeyond(c, c.x, c.y);
    }
  }

  lemma SquarePositive(r: int)
    requires r > 0
    ensures Square(r) > 0
  {}

  /** A pixel is one that the module in column i and row j inks: the module is dark and the pixel is in its cell, within its arcs. */
  ghost predicate Inks(m: Matrix, size: nat, style: Style, i: nat, j: nat, x: int, y: int)
    requires i < |m| && j < |m|
  {
    var c := ModuleCell(m, size, style, i, j);
    m[j][i] && InCell(c, x, y) && exists r :: ArcRadius(style, Min(c.w, c.h), r) && !BeyondArc(c, r, x, y)
  }

  lemma InksIff(m: Matrix, size: nat, style: Style, i: nat, j: nat, x: int, y: int)
    requires i < |m| && j < |m|
    ensures InkedBy(m, size, style, i, j, x, y) <==> Inks(m, size, style, i, j, x, y)
  {
    var c := ModuleCell(m, size, style, i, j);
    CellSized(m, size, style, i, j);
    RadiusExists(style, c);
    var r := PixelRadius(c, CellRadius(style));
    forall s | ArcRadius(style, Min(c.w, c.h), s) ensures s == r { RadiusIs(style, c, s); }
    ArcOfCell(c, r, x, y);
    RadiusNatural(style, Min(c.w, c.h), r);
    hide Edge, OutsideArc, CellRadius, PixelRadius, BeyondArc, ArcRadius;
    if r == 0 && InCell(c, x, y) { NothingBeyond(c, x, y); }
  }

  lemma CellSized(m: Matrix, size: nat, style: Style, i: nat, j: nat)
    requires i < |m| && j < |m|
    ensures ModuleCell(m, size, style, i, j).w >= 1 && ModuleCell(m, size, style, i, j).h >= 1
  {
    hide Edge;
  }

  /** The whole picture at any size, even one too small for the symbol: what some module inks and the corners spare. */
  lemma PictureIff(m: Matrix, size: nat, style: Style, x: int, y: int)
    ensures Picture(m, size, style, x, y) <==>
      && (exists i: nat, j: nat :: i < |m| && j < |m| && Inks(m, size, style, i, j, x, y))
      && !Cleared(size, size, style.cornerRadius, x, y)
  {
    hide InkedBy, Inks, Cleared;
    forall i: nat, j: nat | i < |m| && j < |m| ensures InkedBy(m, size, style, i, j, x, y) <==> Inks(m, size, style, i, j, x, y) {
      InksIff(m, size, style, i, j, x, y);
    }
    if i: nat, j: nat :| i < |m| && j < |m| && Inks(m, size, style, i, j, x, y) {
      assert Before(i, j, |m|, 0);
    }
  }

  // ---- Places -----------------------------------------------------------------------------------------

  /** `e` is the pixel nearest to k of `total` equal parts of `size`, halves up. */
  predicate NearestEdge(k: nat, size: nat, total: nat, e: int) {
    2 * k * size - total < 2 * total * e <= 2 * k * size + total
  }

  lemma EdgeIsNearest(k: nat, size: nat, total: nat)
    requires total > 0
    ensures NearestEdge(k, size, total, Edge(k, size, total))
  {
    var q, r := Divide(2 * k * size + total, 2 * total);
  }

  /** A column or row that starts at pixel `e` and is `w` wide is the k-th of `total` equal ones, but at least one pixel wide. */
  predicate NearestSpan(k: nat, size: nat, total: nat, e: int, w: int) {
    && w >= 1 && NearestEdge(k, size, total, e)
    && (NearestEdge(k + 1, size, total, e + w) || (w == 1 && NearestEdge(k + 1, size, total, e)))
  }

  lemma SpanIsNearest(k: nat, size: nat, total: nat)
    requires total > 0
    ensures var e := Edge(k, size, total);
            NearestSpan(k, size, total, e, AtLeastOne(Edge(k + 1, size, total) - e))
  {
    hide Edge, NearestEdge;
    EdgeIsNearest(k, size, total);
    EdgeIsNearest(k + 1, size, total);
    EdgesGrow(k, k + 1, size, total);
  }

  /**
   Where a module lies, at any size: a quiet zone of the set width, or four modules wide, on all
   sides; columns and rows between the nearest pixels, and at least one pixel wide and high.
   */
  lemma CellPlace(m: Matrix, size: nat, style: Style, i: nat, j: nat)
    requires i < |m| && j < |m|
    ensures var quiet: nat := if style.quietZone > 0 then style.quietZone else 4;
            var total, c := |m| + quiet + quiet, ModuleCell(m, size, style, i, j);
            && NearestSpan(i + quiet, size, total, c.x, c.w)
            && NearestSpan(j + quiet, size, total, c.y, c.h)
  {
    hide Edge, NearestSpan;
    SpanIsNearest(i + QuietModules(style), size, Total(m, style));
    SpanIsNearest(j + QuietModules(style), size, Total(m, style));
  }

  // ---- The picture's corners ------------------------------------------------------------------------------

  /** The corner radius, cut down to half the width and half the height. */
  predicate CornerRadius(w: nat, h: nat, radius: int, r: int) {
    && 0 <= r <= radius && 2 * r <= w && 2 * r <= h
    && (r == radius || 2 * r + 2 > w || 2 * r + 2 > h)
  }

  /** Rounding the corners clears exactly the pixels beyond quarter circles of the radius, as far as it fits. */
  lemma CornerShape(w: nat, h: nat, radius: int, x: int, y: int, r: int)
    requires radius > 0 && 0 <= x < w && 0 <= y < h && CornerRadius(w, h, radius, r)
    ensures Cleared(w, h, radius, x, y) <==> BeyondArc(Cell(0, 0, w, h), r, x, y)
  {
    hide OutsideArc, BeyondArc;
    ArcOfCell(Cell(0, 0, w, h), r, x, y);
    assert CornerPixels(w, h, radius) == r;
  }

  /** Without a radius nothing is cleared. */
  lemma NoCorners(w: nat, h: nat, radius: int, x: int, y: int)
    requires radius <= 0
    ensures !Cleared(w, h, radius, x, y)
  {}
}
