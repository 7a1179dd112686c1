/**
 Reading the picture back: sampling each cell's centre recovers the modules.
 */
module RasterTheorems {
  import opened Raster

  // ---- Edges -----------------------------------------------------------------------------

  lemma {:induction false} MulNext(d: nat, p: nat, q: nat)
    requires p < q
    ensures d * p + d <= d * q
    decreases q
  {
    SumParts(d, q - 1, 1);
    if p + 1 < q { MulNext(d, p, q - 1); }
  }

  lemma QuotientIs(s: nat, q: nat, r: nat, d: nat)
    requires d > 0 && r < d && s == d * q + r
    ensures s / d == q
  {
    var p := s / d;
    if p < q { MulNext(d, p, q); }
    if q < p { MulNext(d, q, p); }
  }

  lemma Divide(s: nat, d: nat) returns (q: nat, r: nat)
    requires d > 0
    ensures s == d * q + r && r < d && s / d == q
  {
    q, r := s / d, s % d;
  }

  lemma DivAdd(a: nat, b: nat, d: nat)
    requires d > 0
    ensures a / d + b / d <= (a + b) / d <= a / d + b / d + 1
  {
    var p, r := Divide(a, d);
    var q, t := Divide(b, d);
    SumParts(d, p, q);
    if r + t < d {
      QuotientIs(a + b, p + q, r + t, d);
    } else {
      SumParts(d, p + q, 1);
      QuotientIs(a + b, p + q + 1, r + t - d, d);
    }
  }

  lemma SumParts(d: nat, p: nat, q: nat)
    ensures d * (p + q) == d * p + d * q
  {}

  lemma HalvesCancel(s: nat, t: nat)
    requires t > 0
    ensures (2 * s) / (2 * t) == s / t
  {
    var q, r := Divide(s, t);
    assert 2 * s == (2 * t) * q + 2 * r;
    QuotientIs(2 * s, q, 2 * r, 2 * t);
  }

  /** Neighbouring edges are size/total apart, rounded down or up: widths differ by at most one. */
  lemma WidthBounds(k: nat, size: nat, total: nat)
    requires total > 0
    ensures size / total <= Edge(k + 1, size, total) - Edge(k, size, total) <= size / total + 1
  {
    assert 2 * (k + 1) * size + total == (2 * k * size + total) + 2 * size;
    DivAdd(2 * k * size + total, 2 * size, 2 * total);
    HalvesCancel(size, total);
  }

  lemma {:induction false} EdgesGrow(k: nat, l: nat, size: nat, total: nat)
    requires total > 0 && k <= l
    ensures Edge(k, size, total) <= Edge(l, size, total)
  {
    hide Edge;
    if k < l {
      EdgesGrow(k, l - 1, size, total);
      WidthBounds(l - 1, size, total);
      QuotientNat(size, total);
    }
  }

  lemma QuotientNat(a: nat, d: nat)
    requires d > 0
    ensures a / d >= 0
  {}

  lemma OuterEdges(size: nat, total: nat)
    requires total > 0
    ensures Edge(0, size, total) == 0 && Edge(total, size, total) == size
  {
    QuotientIs(2 * 0 * size + total, 0, total, 2 * total);
    assert 2 * total * size + total == (2 * total) * size + total;
    QuotientIs(2 * total * size + total, size, total, 2 * total);
  }

  /** Which cell column (or row) a position falls in. */
  lemma {:induction false} FindCell(x: int, from: nat, n: nat, size: nat, total: nat) returns (i: nat)
    requires total > 0 && n > 0 && Edge(from, size, total) <= x < Edge(from + n, size, total)
    ensures i < n && Edge(from + i, size, total) <= x < Edge(from + i + 1, size, total)
    decreases n
  {
    hide Edge;
    if x < Edge(from + n - 1, size, total) {
      i := FindCell(x, from, n - 1, size, total);
    } else {
      i := n - 1;
    }
  }

  lemma OneCell(x: int, k: nat, l: nat, size: nat, total: nat)
    requires total > 0 && Edge(k, size, total) <= x < Edge(k + 1, size, total)
    requires Edge(l, size, total) <= x < Edge(l + 1, size, total)
    ensures k == l
  {
    hide Edge;
    if k < l { EdgesGrow(k + 1, l, size, total); }
    if l < k { EdgesGrow(l + 1, k, size, total); }
  }

  // ---- Cells tile the symbol ------------------------------------------------------------------

  function First(m: Matrix, size: nat, style: Style): nat {
    Edge(QuietModules(style), size, Total(m, style))
  }

  function Last(m: Matrix, size: nat, style: Style): nat {
    Edge(QuietModules(style) + |m|, size, Total(m, style))
  }

  function ModuleCell(m: Matrix, size: nat, style: Style, i: nat, j: nat): Cell {
    CellAt(i, j, size, QuietModules(style), Total(m, style))
  }

  predicate InSymbol(m: Matrix, size: nat, style: Style, x: int, y: int) {
    First(m, size, style) <= x < Last(m, size, style) && First(m, size, style) <= y < Last(m, size, style)
  }

  lemma CellSpan(m: Matrix, size: nat, style: Style, i: nat, j: nat)
    requires i < |m| && j < |m| && size >= Total(m, style)
    ensures var c, q, t := ModuleCell(m, size, style, i, j), QuietModules(style), Total(m, style);
            && c.x == Edge(i + q, size, t) && c.x + c.w == Edge(i + q + 1, size, t)
            && c.y == Edge(j + q, size, t) && c.y + c.h == Edge(j + q + 1, size, t)
            && size / t <= c.w <= size / t + 1 && size / t <= c.h <= size / t + 1 && 1 <= size / t
  {
    hide Edge;
    var q, t := QuietModules(style), Total(m, style);
    WidthBounds(i + q, size, t);
    WidthBounds(j + q, size, t);
    AtLeastOnce(size, t);
  }

  lemma AtLeastOnce(a: nat, d: nat)
    requires a >= d > 0
    ensures a / d >= 1
  {
    var q, r := Divide(a, d);
    if q < 1 { MulNext(d, q, 1); }
  }

  /**
   The cells of the modules tile the symbol: each of its pixels lies in exactly one cell, no
   cell reaches outside it, the symbol lies inside the picture, and widths and heights
   differ by at most one.
   */
  lemma CellsTile(m: Matrix, size: nat, style: Style)
    requires size >= Total(m, style)
    ensures 0 <= First(m, size, style) <= Last(m, size, style) <= size
    ensures forall x, y :: InSymbol(m, size, style, x, y) ==>
      exists i: nat, j: nat :: i < |m| && j < |m| && InCell(ModuleCell(m, size, style, i, j), x, y)
    ensures forall i: nat, j: nat, x, y :: i < |m| && j < |m| && InCell(ModuleCell(m, size, style, i, j), x, y) ==>
      InSymbol(m, size, style, x, y)
    ensures forall i: nat, j: nat, a: nat, b: nat, x, y |
      i < |m| && j < |m| && a < |m| && b < |m|
      && InCell(ModuleCell(m, size, style, i, j), x, y) && InCell(ModuleCell(m, size, style, a, b), x, y)
      :: i == a && j == b
    ensures forall i: nat, j: nat, a: nat, b: nat | i < |m| && j < |m| && a < |m| && b < |m| ::
      var c, d := ModuleCell(m, size, style, i, j), ModuleCell(m, size, style, a, b);
      -1 <= c.w - d.w <= 1 && -1 <= c.h - d.h <= 1
  {
    hide Edge, ModuleCell;
    var q, t, n := QuietModules(style), Total(m, style), |m|;
    EdgesGrow(q, q + n, size, t);
    EdgesGrow(q + n, t, size, t);
    OuterEdges(size, t);
    forall x, y | InSymbol(m, size, style, x, y)
      ensures exists i: nat, j: nat :: i < n && j < n && InCell(ModuleCell(m, size, style, i, j), x, y)
    {
      var i := FindCell(x, q, n, size, t);
      var j := FindCell(y, q, n, size, t);
      CellSpan(m, size, style, i, j);
      assert InCell(ModuleCell(m, size, style, i, j), x, y);
    }
    forall i: nat, j: nat, x, y | i < n && j < n && InCell(ModuleCell(m, size, style, i, j), x, y)
      ensures InSymbol(m, size, style, x, y)
    {
      CellInSymbol(m, size, style, i, j, x, y);
    }
    forall i: nat, j: nat, a: nat, b: nat, x, y |
      i < n && j < n && a < n && b < n
      && InCell(ModuleCell(m, size, style, i, j), x, y) && InCell(ModuleCell(m, size, style, a, b), x, y)
      ensures i == a && j == b
    {
      CellUnique(m, size, style, i, j, a, b, x, y);
    }
    forall i: nat, j: nat, a: nat, b: nat | i < n && j < n && a < n && b < n
      ensures var c, d := ModuleCell(m, size, style, i, j), ModuleCell(m, size, style, a, b);
              -1 <= c.w - d.w <= 1 && -1 <= c.h - d.h <= 1
    {
      CellSpan(m, size, style, i, j);
      CellSpan(m, size, style, a, b);
    }
  }

  lemma CellInSymbol(m: Matrix, size: nat, style: Style, i: nat, j: nat, x: int, y: int)
    requires i < |m| && j < |m| && size >= Total(m, style) && InCell(ModuleCell(m, size, style, i, j), x, y)
    ensures InSymbol(m, size, style, x, y)
  {
    hide Edge, ModuleCell;
    var q, t, n := QuietModules(style), Total(m, style), |m|;
    CellSpan(m, size, style, i, j);
    EdgesGrow(q, i + q, size, t);
    EdgesGrow(q, j + q, size, t);
    EdgesGrow(i + q + 1, q + n, size, t);
    EdgesGrow(j + q + 1, q + n, size, t);
  }

  lemma CellUnique(m: Matrix, size: nat, style: Style, i: nat, j: nat, a: nat, b: nat, x: int, y: int)
    requires i < |m| && j < |m| && a < |m| && b < |m| && size >= Total(m, style)
    requires InCell(ModuleCell(m, size, style, i, j), x, y) && InCell(ModuleCell(m, size, style, a, b), x, y)
    ensures i == a && j == b
  {
    hide Edge, ModuleCell;
    var q, t := QuietModules(style), Total(m, style);
    CellSpan(m, size, style, i, j);
    CellSpan(m, size, style, a, b);
    OneCell(x, i + q, a + q, size, t);
    OneCell(y, j + q, b + q, size, t);
  }

  // ---- Ink stays in its cell --------------------------------------------------------------------

  /** Inside a module's cell only that module inks. */
  lemma CellDecides(m: Matrix, size: nat, style: Style, i: nat, j: nat, x: int, y: int)
    requires i < |m| && j < |m| && size >= Total(m, style) && InCell(ModuleCell(m, size, style, i, j), x, y)
    ensures InkedSoFar(m, size, style, |m|, 0, x, y) <==> InkedBy(m, size, style, i, j, x, y)
  {
    hide Edge, OutsideArc;
    if InkedSoFar(m, size, style, |m|, 0, x, y) {
      var a: nat, b: nat :| a < |m| && b < |m| && Before(a, b, |m|, 0) && InkedBy(m, size, style, a, b, x, y);
      assert InCell(ModuleCell(m, size, style, a, b), x, y);
      CellUnique(m, size, style, i, j, a, b, x, y);
    }
    if InkedBy(m, size, style, i, j, x, y) { assert Before(i, j, |m|, 0); }
  }

  /** The quiet zone stays clear. */
  lemma QuietZoneClear(m: Matrix, size: nat, style: Style, x: int, y: int)
    requires size >= Total(m, style) && !InSymbol(m, size, style, x, y)
    ensures !Picture(m, size, style, x, y)
  {
    hide Edge, OutsideArc, Cleared;
    if InkedSoFar(m, size, style, |m|, 0, x, y) {
      var a: nat, b: nat :| a < |m| && b < |m| && Before(a, b, |m|, 0) && InkedBy(m, size, style, a, b, x, y);
      CellInSymbol(m, size, style, a, b, x, y);
    }
  }

  // ---- Corners ---------------------------------------------------------------------------------------

  /** No corner radius, or one that reaches no further than the quiet zone on each side. */
  predicate CornerInQuietZone(m: Matrix, size: nat, style: Style) {
    style.cornerRadius <= 0
    || (style.cornerRadius <= First(m, size, style) && style.cornerRadius <= size - Last(m, size, style))
  }

  lemma CornersSpareSymbol(m: Matrix, size: nat, style: Style, x: int, y: int)
    requires CornerInQuietZone(m, size, style) && InSymbol(m, size, style, x, y)
    ensures !Cleared(size, size, style.cornerRadius, x, y)
  {
    hide Edge;
  }

  lemma ClearedMirrors(w: int, h: int, radius: int, x: int, y: int)
    ensures Cleared(w, h, radius, w - 1 - x, y) == Cleared(w, h, radius, x, y)
    ensures Cleared(w, h, radius, x, h - 1 - y) == Cleared(w, h, radius, x, y)
  {
    hide OutsideArc, CornerPixels;
    assert Min(w - 1 - x, w - 1 - (w - 1 - x)) == Min(x, w - 1 - x);
    assert Min(h - 1 - y, h - 1 - (h - 1 - y)) == Min(y, h - 1 - y);
  }

  /** Rounding the corners of an image twice leaves what rounding them once leaves, and nothing is inked. */
  method CornersTwice(img: Image, radius: int)
    requires img.Valid()
    modifies img.pix
    ensures forall x, y :: img.At(x, y) <==> old(img.At(x, y)) && !Cleared(img.width, img.height, radius, x, y)
  {
    hide Cleared;
    img.ApplyCornerRadius(radius);
    label once:
    img.ApplyCornerRadius(radius);
    assert forall x, y :: img.At(x, y) == old@once(img.At(x, y));
  }

  /** Each picture is the other one mirrored left to right. */
  ghost predicate MirroredX(a: Image, b: Image)
    requires a.Valid() && b.Valid()
    reads a.pix, b.pix
  {
    forall x, y :: a.At(x, y) == b.At(a.width - 1 - x, y)
  }

  /** Each picture is the other one mirrored top to bottom. */
  ghost predicate MirroredY(a: Image, b: Image)
    requires a.Valid() && b.Valid()
    reads a.pix, b.pix
  {
    forall x, y :: a.At(x, y) == b.At(x, a.height - 1 - y)
  }

  /** Rounding the corners commutes with mirroring: mirrored pictures stay mirrored. */
  method CornersMirror(a: Image, b: Image, radius: int)
    requires a.Valid() && b.Valid() && a.pix != b.pix && a.width == b.width && a.height == b.height
    modifies a.pix, b.pix
    ensures old(MirroredX(a, b)) ==> MirroredX(a, b)
    ensures old(MirroredY(a, b)) ==> MirroredY(a, b)
  {
    hide Cleared;
    a.ApplyCornerRadius(radius);
    b.ApplyCornerRadius(radius);
    forall x, y ensures Cleared(a.width, a.height, radius, a.width - 1 - x, y) == Cleared(a.width, a.height, radius, x, y)
                     && Cleared(a.width, a.height, radius, x, a.height - 1 - y) == Cleared(a.width, a.height, radius, x, y)
    {
      ClearedMirrors(a.width, a.height, radius, x, y);
    }
  }

  // ---- Sampling ----------------------------------------------------------------------------------------

  function CentreX(c: Cell): int {
    c.x + c.w / 2
  }

  function CentreY(c: Cell): int {
    c.y + c.h / 2
  }

  /** The centre of a rounded cell keeps its ink exactly unless the cell is at most two by two and rounded at all. */
  lemma CentreInkIff(c: Cell, r: int)
    requires c.w >= 1 && c.h >= 1 && 0 <= r && 2 * r <= Min(c.w, c.h) + 1
    ensures CellInk(c, r, CentreX(c), CentreY(c)) <==> r == 0 || c.w >= 3 || c.h >= 3
  {
    var dx, dy := Min(c.w / 2, c.w - 1 - c.w / 2), Min(c.h / 2, c.h - 1 - c.h / 2);
    assert dx == (c.w - 1) / 2 && dy == (c.h - 1) / 2;
    if dx < r && dy < r {
      ArcAtCentre(dx, dy, r);
    }
  }

  lemma ArcAtCentre(dx: int, dy: int, r: int)
    requires 0 <= dx < r && 0 <= dy < r && r <= dx + 1 && r <= dy + 1
    ensures OutsideArc(dx, dy, r) <==> r == 1
  {
    assert r - dx == 1 && r - dy == 1;
    if r >= 2 { assert r * r >= 4; }
  }

  lemma RadiusBound(c: Cell, radius: real)
    requires c.w >= 1 && c.h >= 1 && radius <= 0.5
    ensures 0 <= PixelRadius(c, radius) && 2 * PixelRadius(c, radius) <= Min(c.w, c.h) + 1
  {
    hide Share, Rounded;
    if radius > 0.0 {
      ShareBound(Min(c.w, c.h), radius);
      RoundedBound(Share(Min(c.w, c.h), radius), Min(c.w, c.h));
    }
  }

  lemma ShareBound(side: int, radius: real)
    requires side >= 1 && 0.0 < radius <= 0.5
    ensures 0.0 <= Share(side, radius) <= side as real * 0.5
  {}

  lemma RoundedBound(t: real, a: int)
    requires 0.0 <= t <= a as real * 0.5
    ensures 0 <= Rounded(t) && 2 * Rounded(t) <= a + 1
  {
    FloorBelow(t + 0.5);
  }

  lemma FloorBelow(x: real)
    ensures x.Floor as real <= x
  {}

  /**
   The centre pixel of every module's cell shows the module, unless the cell is rounded and
   at most two pixels wide and high: then it is clear, dark or not.
   */
  lemma CentreShowsIff(m: Matrix, size: nat, style: Style, i: nat, j: nat)
    requires i < |m| && j < |m| && size >= Total(m, style)
    requires CellRadius(style) <= 0.5 && CornerInQuietZone(m, size, style)
    ensures var c := ModuleCell(m, size, style, i, j);
            var vanishes := PixelRadius(c, CellRadius(style)) > 0 && c.w <= 2 && c.h <= 2;
            Picture(m, size, style, CentreX(c), CentreY(c)) <==> m[j][i] && !vanishes
  {
    hide Edge, OutsideArc, CellRadius, PixelRadius, InkedSoFar, Cleared;
    var c := ModuleCell(m, size, style, i, j);
    CellSpan(m, size, style, i, j);
    CellDecides(m, size, style, i, j, CentreX(c), CentreY(c));
    CellInSymbol(m, size, style, i, j, CentreX(c), CentreY(c));
    CornersSpareSymbol(m, size, style, CentreX(c), CentreY(c));
    RadiusBound(c, CellRadius(style));
    CentreInkIff(c, PixelRadius(c, CellRadius(style)));
  }

  /**
   Dark modules do disappear at settings the server accepts: with 133 modules, a quiet zone
   of 20, 512 pixels and rounding by a quarter, the cell of module (17, 17) is two by two.
   */
  lemma ModuleDisappears(m: Matrix)
    requires |m| == 133 && m[17][17]
    ensures var style := Style(0, "rounded", 0.25, 20);
            var c := ModuleCell(m, 512, style, 17, 17);
            c == Cell(110, 110, 2, 2) && !Picture(m, 512, style, CentreX(c), CentreY(c))
  {
    hide Picture;
    var style := Style(0, "rounded", 0.25, 20);
    assert 512 / 173 == 2;
    assert ModuleCell(m, 512, style, 17, 17) == Cell(110, 110, 2, 2);
    CentreShowsIff(m, 512, style, 17, 17);
  }

  /**
   Rendering and sampling recover the matrix: for any modules, square at one pixel a module
   or more, any style with radius at most one half at three pixels a module or more, and
   any corner radius inside the quiet zone.
   */
  lemma SamplingRecovers(m: Matrix, size: nat, style: Style)
    requires CellRadius(style) <= 0.5 && CornerInQuietZone(m, size, style)
    requires size >= if CellRadius(style) <= 0.0 then Total(m, style) else 3 * Total(m, style)
    ensures forall i: nat, j: nat :: i < |m| && j < |m| ==>
      var c := ModuleCell(m, size, style, i, j);
      Picture(m, size, style, CentreX(c), CentreY(c)) == m[j][i]
  {
    hide Edge, Picture, ModuleCell, CornerInQuietZone;
    forall i: nat, j: nat | i < |m| && j < |m|
      ensures var c := ModuleCell(m, size, style, i, j); Picture(m, size, style, CentreX(c), CentreY(c)) == m[j][i]
    {
      CentreShowsIff(m, size, style, i, j);
      CellSpan(m, size, style, i, j);
      if CellRadius(style) > 0.0 { ThreeTimes(size, Total(m, style)); }
    }
  }

  lemma ThreeTimes(a: nat, d: nat)
    requires a >= 3 * d && d > 0
    ensures a / d >= 3
  {
    var q, r := Divide(a, d);
    if q < 3 { MulNext(d, q, 3); }
  }

  /** Without rounding every pixel of a cell, not only its centre, shows the module. */
  lemma SquareIsExact(m: Matrix, size: nat, style: Style, i: nat, j: nat, x: int, y: int)
    requires i < |m| && j < |m| && size >= Total(m, style) && InCell(ModuleCell(m, size, style, i, j), x, y)
    requires CellRadius(style) <= 0.0 && CornerInQuietZone(m, size, style)
    ensures Picture(m, size, style, x, y) == m[j][i]
  {
    hide Edge, OutsideArc, InkedSoFar, Cleared, CellRadius;
    CellDecides(m, size, style, i, j, x, y);
    CellInSymbol(m, size, style, i, j, x, y);
    CornersSpareSymbol(m, size, style, x, y);
  }
}
