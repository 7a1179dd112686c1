/**
 The styled rasteriser (qr/round.go).  A pixel is inked or clear; positions and sizes are
 pixels, and coordinates are rounded exactly.
 */
module Raster {

  datatype Style = Style(cornerRadius: int, moduleStyle: string, moduleRadius: real, quietZone: int)

  type Matrix = m: seq<seq<bool>> | forall i :: 0 <= i < |m| ==> |m[i]| == |m| witness []

  function Min(a: int, b: int): int {
    if a < b then a else b
  }

  function QuietModules(style: Style): (q: nat)
    ensures q >= 1
  {
    if style.quietZone > 0 then style.quietZone else 4
  }

  function Total(m: Matrix, style: Style): nat {
    |m| + 2 * QuietModules(style)
  }

  /** round(k * size / total), halves up. */
  function Edge(k: nat, size: nat, total: nat): (e: nat)
    requires total > 0
  {
    (2 * k * size + total) / (2 * total)
  }

  /** math.Round of a non-negative number. */
  function Rounded(x: real): int {
    (x + 0.5).Floor
  }

  function CellRadius(style: Style): real {
    if style.moduleStyle == "blob" then if style.moduleRadius > 0.0 then style.moduleRadius else 0.5
    else if style.moduleStyle == "rounded" then if style.moduleRadius <= 0.0 then 0.25 else style.moduleRadius
    else 0.0
  }

  /** One module's place in the picture. */
  datatype Cell = Cell(x: int, y: int, w: int, h: int)

  function AtLeastOne(n: int): int {
    if n < 1 then 1 else n
  }

  function CellAt(i: nat, j: nat, size: nat, quiet: nat, total: nat): Cell
    requires total > 0
  {
    var px, py := Edge(i + quiet, size, total), Edge(j + quiet, size, total);
    Cell(px, py, AtLeastOne(Edge(i + quiet + 1, size, total) - px), AtLeastOne(Edge(j + quiet + 1, size, total) - py))
  }

  /** The part of a side that a radius fraction stands for. */
  function Share(side: int, radius: real): real {
    side as real * radius
  }

  function PixelRadius(c: Cell, radius: real): int {
    if radius <= 0.0 then 0 else Rounded(Share(Min(c.w, c.h), radius))
  }

  predicate InCell(c: Cell, x: int, y: int) {
    c.x <= x < c.x + c.w && c.y <= y < c.y + c.h
  }

  /** A pixel dx and dy away from the nearest sides lies outside the quarter circle of radius r. */
  predicate OutsideArc(dx: int, dy: int, r: int) {
    dx < r && dy < r && (r - dx) * (r - dx) + (r - dy) * (r - dy) > r * r
  }

  /** Pixels inked for one dark module. */
  predicate CellInk(c: Cell, r: int, x: int, y: int) {
    InCell(c, x, y) &&
    (r <= 0 || !OutsideArc(Min(x - c.x, c.w - 1 - (x - c.x)), Min(y - c.y, c.h - 1 - (y - c.y)), r))
  }

  /** Modules before row `row`, or in it before column `col`. */
  predicate Before(i: int, j: int, row: int, col: int) {
    j < row || (j == row && i < col)
  }

  predicate InkedBy(m: Matrix, size: nat, style: Style, i: nat, j: nat, x: int, y: int)
    requires i < |m| && j < |m|
  {
    var c := CellAt(i, j, size, QuietModules(style), Total(m, style));
    m[j][i] && CellInk(c, PixelRadius(c, CellRadius(style)), x, y)
  }

  /** Ink of the modules painted so far. */
  ghost predicate InkedSoFar(m: Matrix, size: nat, style: Style, row: int, col: int, x: int, y: int) {
    exists i: nat, j: nat :: i < |m| && j < |m| && Before(i, j, row, col) && InkedBy(m, size, style, i, j, x, y)
  }

  function CornerPixels(w: int, h: int, radius: int): int {
    var r := if radius * 2 > w then w / 2 else radius;
    if r * 2 > h then h / 2 else r
  }

  /** Pixels that rounding the picture's corners clears. */
  predicate Cleared(w: int, h: int, radius: int, x: int, y: int) {
    radius > 0 && OutsideArc(Min(x, w - 1 - x), Min(y, h - 1 - y), CornerPixels(w, h, radius))
  }

  /** The finished picture. */
  ghost predicate Picture(m: Matrix, size: nat, style: Style, x: int, y: int) {
    InkedSoFar(m, size, style, |m|, 0, x, y) && !Cleared(size, size, style.cornerRadius, x, y)
  }

  // ---- The code ---------------------------------------------------------------------------------

  class Image {
    const width: nat
    const height: nat
    const pix: array2<bool>

    predicate Valid() {
      pix.Length0 == height && pix.Length1 == width
    }

    predicate Within(x: int, y: int) {
      0 <= x < width && 0 <= y < height
    }

    predicate At(x: int, y: int)
      requires Valid()
      reads pix
    {
      Within(x, y) && pix[y, x]
    }

    constructor (width: nat, height: nat)
      ensures Valid() && fresh(pix) && this.width == width && this.height == height
      ensures forall x, y :: !At(x, y)
    {
      this.width, this.height := width, height;
      pix := new bool[height, width]((_, _) => false);
    }

    /** image.RGBA ignores positions outside the picture. */
    method Set(x: int, y: int, ink: bool)
      requires Valid()
      modifies pix
      ensures forall a, b :: At(a, b) == if a == x && b == y && Within(x, y) then ink else old(At(a, b))
    {
      if Within(x, y) {
        pix[y, x] := ink;
      }
    }

    method FillRect(x: int, y: int, w: int, h: int)
      requires Valid()
      modifies pix
      ensures forall a, b :: At(a, b) <==> old(At(a, b)) || (Within(a, b) && InCell(Cell(x, y, w, h), a, b))
    {
      var yy := y;
      while yy < y + h
        invariant y <= yy
        invariant forall a, b :: At(a, b) <==>
          old(At(a, b)) || (Within(a, b) && InCell(Cell(x, y, w, h), a, b) && b < yy)
        decreases y + h - yy
      {
        var xx := x;
        while xx < x + w
          invariant x <= xx
          invariant forall a, b :: At(a, b) <==>
            old(At(a, b)) || (Within(a, b) && InCell(Cell(x, y, w, h), a, b) && (b < yy || (b == yy && a < xx)))
          decreases x + w - xx
        {
          Set(xx, yy, true);
          xx := xx + 1;
        }
        yy := yy + 1;
      }
    }

    method FillRoundedRect(x: int, y: int, w: int, h: int, radiusFrac: real)
      requires Valid()
      modifies pix
      ensures forall a, b :: At(a, b) <==>
        old(At(a, b)) || (Within(a, b) && CellInk(Cell(x, y, w, h), Rounded(Share(Min(w, h), radiusFrac)), a, b))
    {
      var r := Rounded(Share(Min(w, h), radiusFrac));
      if r <= 0 {
        FillRect(x, y, w, h);
        return;
      }
      var r2 := r * r;
      ghost var c := Cell(x, y, w, h);
      var yy := 0;
      while yy < h
        invariant 0 <= yy
        invariant forall a, b :: At(a, b) <==> old(At(a, b)) || (Within(a, b) && CellInk(c, r, a, b) && b - y < yy)
        decreases h - yy
      {
        var xx := 0;
        while xx < w
          invariant 0 <= xx
          invariant forall a, b :: At(a, b) <==>
            old(At(a, b)) || (Within(a, b) && CellInk(c, r, a, b) && (b - y < yy || (b - y == yy && a - x < xx)))
          decreases w - xx
        {
          var dx := Min(xx, w - 1 - xx);
          var dy := Min(yy, h - 1 - yy);
          if dx >= r || dy >= r {
            Set(x + xx, y + yy, true);
          } else {
            var ox := r - dx;
            var oy := r - dy;
            if ox * ox + oy * oy <= r2 {
              Set(x + xx, y + yy, true);
            }
          }
          xx := xx + 1;
        }
        yy := yy + 1;
      }
    }

    method ApplyCornerRadius(radius: int)
      requires Valid()
      modifies pix
      ensures forall a, b :: At(a, b) <==> old(At(a, b)) && !Cleared(width, height, radius, a, b)
    {
      if radius <= 0 {
        return;
      }
      var w, h := width, height;
      var r := radius;
      if r * 2 > w {
        r := w / 2;
      }
      if r * 2 > h {
        r := h / 2;
      }
      var r2 := r * r;
      for y := 0 to h
        invariant forall a, b :: At(a, b) <==> old(At(a, b)) && !(Cleared(width, height, radius, a, b) && b < y)
      {
        for x := 0 to w
          invariant forall a, b :: At(a, b) <==>
            old(At(a, b)) && !(Cleared(width, height, radius, a, b) && (b < y || (b == y && a < x)))
        {
          var dx := Min(x, w - 1 - x);
          var dy := Min(y, h - 1 - y);
          if dx >= r || dy >= r {
            continue;
          }
          var ox := r - dx;
          var oy := r - dy;
          if ox * ox + oy * oy > r2 {
            Set(x, y, false);
          }
        }
      }
    }
  }

  method RenderStyled(m: Matrix, size: nat, style: Style) returns (img: Image)
    ensures fresh(img) && fresh(img.pix) && img.Valid() && img.width == size && img.height == size
    ensures forall x, y :: img.At(x, y) <==> img.Within(x, y) && Picture(m, size, style, x, y)
  {
    var n := |m|;
    img := new Image(size, size);
    NothingSoFar(m, size, style);
    if n == 0 || size <= 0 {
      return;
    }
    var quiet := 4;
    if style.quietZone > 0 {
      quiet := style.quietZone;
    }
    var total := n + quiet * 2;
    hide InkedSoFar, InkedBy;
    for y := 0 to n
      invariant img.Valid() && fresh(img.pix) && img.width == size && img.height == size
      invariant forall a, b :: img.At(a, b) <==> img.Within(a, b) && InkedSoFar(m, size, style, y, 0, a, b)
    {
      for x := 0 to n
        invariant img.Valid() && fresh(img.pix) && img.width == size && img.height == size
        invariant forall a, b :: img.At(a, b) <==> img.Within(a, b) && InkedSoFar(m, size, style, y, x, a, b)
      {
        OneMore(m, size, style, x, y);
        if !m[y][x] {
          continue;
        }
        PaintModule(img, m, size, style, quiet, total, x, y);
      }
      NextRow(m, size, style, y);
    }
    if style.cornerRadius > 0 {
      img.ApplyCornerRadius(style.cornerRadius);
    }
  }

  /** The body of the inner loop, for a dark module. */
  method PaintModule(img: Image, m: Matrix, size: nat, style: Style, quiet: nat, total: nat, x: nat, y: nat)
    requires img.Valid() && x < |m| && y < |m| && m[y][x]
    requires quiet == QuietModules(style) && total == Total(m, style)
    modifies img.pix
    ensures forall a, b :: img.At(a, b) <==> old(img.At(a, b)) || (img.Within(a, b) && InkedBy(m, size, style, x, y, a, b))
  {
    hide Edge, Rounded, CellInk, CellRadius, InCell;
    var radius := CellRadius(style);
    var px := Edge(x + quiet, size, total);
    var py := Edge(y + quiet, size, total);
    var pw := Edge(x + quiet + 1, size, total) - px;
    var ph := Edge(y + quiet + 1, size, total) - py;
    if pw < 1 {
      pw := 1;
    }
    if ph < 1 {
      ph := 1;
    }
    ghost var c := Cell(px, py, pw, ph);
    assert c == CellAt(x, y, size, quiet, total);
    SquareInk(c);
    if radius <= 0.0 {
      img.FillRect(px, py, pw, ph);
    } else {
      img.FillRoundedRect(px, py, pw, ph, radius);
    }
  }

  lemma SquareInk(c: Cell)
    ensures forall a, b :: CellInk(c, 0, a, b) <==> InCell(c, a, b)
  {}

  lemma NothingSoFar(m: Matrix, size: nat, style: Style)
    ensures forall a, b :: !InkedSoFar(m, size, style, 0, 0, a, b)
  {}

  lemma OneMore(m: Matrix, size: nat, style: Style, x: nat, y: nat)
    requires x < |m| && y < |m|
    ensures forall a, b :: InkedSoFar(m, size, style, y, x + 1, a, b) <==>
      InkedSoFar(m, size, style, y, x, a, b) || InkedBy(m, size, style, x, y, a, b)
    ensures !m[y][x] ==> forall a, b :: !InkedBy(m, size, style, x, y, a, b)
  {
    forall a, b
      ensures InkedSoFar(m, size, style, y, x + 1, a, b) <==>
        InkedSoFar(m, size, style, y, x, a, b) || InkedBy(m, size, style, x, y, a, b)
    {
      if InkedBy(m, size, style, x, y, a, b) { assert Before(x, y, y, x + 1); }
    }
  }

  lemma NextRow(m: Matrix, size: nat, style: Style, y: nat)
    requires y < |m|
    ensures forall a, b :: InkedSoFar(m, size, style, y + 1, 0, a, b) <==> InkedSoFar(m, size, style, y, |m|, a, b)
  {
    hide InkedBy;
  }
}
