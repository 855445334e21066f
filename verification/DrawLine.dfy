/** Lines of GfxRenderer: axis-aligned loops, and Bresenham's algorithm for the rest. */
module DrawLine {
  import opened Arithmetic

  datatype Pixel = Pixel(x: int, y: int)

  function Abs(a: int): (r: nat)
    ensures r == a || r == -a
  {
    if a < 0 then -a else a
  }

  function Sign(a: int): int {
    if a > 0 then 1 else if a < 0 then -1 else 0
  }

  function Max(a: nat, b: nat): nat {
    if a < b then b else a
  }

  predicate Within(a: int, bound: int) {
    -bound <= a <= bound
  }

  // Twice the distance from p to the ideal line from a to b along the minor axis, times the length of the major axis;
  // the steps from a to p are counted in the direction of b.
  function TwiceOff(a: Pixel, b: Pixel, p: Pixel): int {
    2 * (Abs(b.x - a.x) * (Sign(b.y - a.y) * (p.y - a.y)) - Abs(b.y - a.y) * (Sign(b.x - a.x) * (p.x - a.x)))
  }

  predicate Neighbours(p: Pixel, q: Pixel) {
    p != q && Abs(p.x - q.x) <= 1 && Abs(p.y - q.y) <= 1
  }

  /** A line from a to b: a chain of neighbours, as long as the major axis, never more than half a pixel off. */
  ghost predicate IsLine(pixels: seq<Pixel>, a: Pixel, b: Pixel) {
    var major := Max(Abs(b.x - a.x), Abs(b.y - a.y));
    && |pixels| == major + 1 && pixels[0] == a && pixels[major] == b
    && (forall k {:trigger pixels[k]} :: 0 <= k <= major ==> Within(TwiceOff(a, b, pixels[k]), major))
    && (forall k {:trigger pixels[k]} :: 0 < k <= major ==> Neighbours(pixels[k - 1], pixels[k]))
  }

  // Where the loop stands after i steps along x and j along y, off by f.
  ghost predicate At(dx: nat, dy: nat, i: nat, j: nat, f: int, err: int) {
    && f == dx * j - dy * i && err == f + dx - dy
    && Within(2 * f, Max(dx, dy))
    && i <= dx && j <= dy
  }

  // The tests decide the next pixel; one of the axes advances at every step, the major one.
  lemma {:induction false} NextStep(dx: nat, dy: nat, i: nat, j: nat, f: int, err: int)
    requires dx > 0 && dy > 0 && At(dx, dy, i, j, f, err) && !(i == dx && j == dy)
    ensures var alongX, alongY := 2 * err + dy >= 0, 2 * err <= dx;
            && (dx >= dy ==> alongX && i < dx) && (dy >= dx ==> alongY && j < dy)
            && At(dx, dy, if alongX then i + 1 else i, if alongY then j + 1 else j,
                  f - (if alongX then dy else 0) + (if alongY then dx else 0),
                  err - (if alongX then dy else 0) + (if alongY then dx else 0))
  {
    var alongX, alongY := 2 * err + dy >= 0, 2 * err <= dx;
    Distribute(dx, j, 1);
    Distribute(dy, i, 1);
    if dx >= dy {
      LastStep(dx, dy, i, j, f);
    }
    if dy >= dx {
      LastStep(dy, dx, j, i, -f);
    }
    var i', j' := if alongX then i + 1 else i, if alongY then j + 1 else j;
    var f' := f - (if alongX then dy else 0) + (if alongY then dx else 0);
    assert f' == dx * j' - dy * i';
    InRange(dx, dy, i', j', f');
  }

  // The minor axis arrives together with the major one, and not before.
  lemma {:induction false} LastStep(major: nat, minor: nat, i: nat, j: nat, f: int)
    requires major >= minor > 0 && i <= major && j <= minor && f == major * j - minor * i && Within(2 * f, major)
    ensures i == major ==> j == minor
  {
    if i == major && j < minor {
      Distribute(major, minor, j);
      MulAtLeast(major, minor - j);
    }
  }

  lemma {:induction false} InRange(dx: nat, dy: nat, i: nat, j: nat, f: int)
    requires dx > 0 && dy > 0 && f == dx * j - dy * i && Within(2 * f, Max(dx, dy))
    ensures dx >= dy && i <= dx ==> j <= dy
    ensures dy >= dx && j <= dy ==> i <= dx
  {
    if dx >= dy && i <= dx && j > dy {
      Distribute(dx, j, dy);
      MulAtLeast(dx, j - dy);
      MulMonotone(dy, i, dx);
    }
    if dy >= dx && j <= dy && i > dx {
      Distribute(dy, i, dx);
      MulAtLeast(dy, i - dx);
      MulMonotone(dx, j, dy);
    }
  }

  // The doubled error stays within three times the major axis: an int holds it for every line on a screen.
  lemma {:induction false} ErrorFits(dx: nat, dy: nat, i: nat, j: nat, f: int, err: int)
    requires At(dx, dy, i, j, f, err)
    ensures Within(2 * err, 3 * Max(dx, dy))
  {
  }

  // The pixel after i steps along x and j along y.
  function PixelAt(a: Pixel, b: Pixel, i: nat, j: nat): Pixel {
    Pixel(a.x + Sign(b.x - a.x) * i, a.y + Sign(b.y - a.y) * j)
  }

  lemma {:induction false} PixelOff(a: Pixel, b: Pixel, i: nat, j: nat)
    requires a.x != b.x && a.y != b.y
    ensures TwiceOff(a, b, PixelAt(a, b, i, j)) == 2 * (Abs(b.x - a.x) * j - Abs(b.y - a.y) * i)
    ensures PixelAt(a, b, i, j).x == b.x <==> i == Abs(b.x - a.x)
    ensures PixelAt(a, b, i, j).y == b.y <==> j == Abs(b.y - a.y)
  {
    var sx, sy := Sign(b.x - a.x), Sign(b.y - a.y);
    assert sx * (sx * i) == i && sy * (sy * j) == j;
  }

  lemma {:induction false} NextPixel(a: Pixel, b: Pixel, i: nat, j: nat)
    requires a.x != b.x && a.y != b.y
    ensures var p, sx, sy := PixelAt(a, b, i, j), Sign(b.x - a.x), Sign(b.y - a.y);
            && PixelAt(a, b, i + 1, j) == Pixel(p.x + sx, p.y) && Neighbours(p, PixelAt(a, b, i + 1, j))
            && PixelAt(a, b, i, j + 1) == Pixel(p.x, p.y + sy) && Neighbours(p, PixelAt(a, b, i, j + 1))
            && PixelAt(a, b, i + 1, j + 1) == Pixel(p.x + sx, p.y + sy) && Neighbours(p, PixelAt(a, b, i + 1, j + 1))
  {
    Distribute(Sign(b.x - a.x), i, 1);
    Distribute(Sign(b.y - a.y), j, 1);
  }

  lemma {:induction false} FirstPixel(a: Pixel, b: Pixel)
    requires a.x != b.x && a.y != b.y
    ensures PixelAt(a, b, 0, 0) == a
    ensures var dx, dy := Abs(b.x - a.x), Abs(b.y - a.y); At(dx, dy, 0, 0, 0, dx - dy)
  {
  }

  lemma {:induction false} PixelWithin(a: Pixel, b: Pixel, i: nat, j: nat, f: int, err: int)
    requires a.x != b.x && a.y != b.y && At(Abs(b.x - a.x), Abs(b.y - a.y), i, j, f, err)
    ensures Within(TwiceOff(a, b, PixelAt(a, b, i, j)), Max(Abs(b.x - a.x), Abs(b.y - a.y)))
    ensures i <= Abs(b.x - a.x) && j <= Abs(b.y - a.y)
    ensures PixelAt(a, b, i, j) == b <==> i == Abs(b.x - a.x) && j == Abs(b.y - a.y)
  {
    hide TwiceOff;
    PixelOff(a, b, i, j);
  }

  class GfxRenderer {
    // The calls of drawPixel, in their order.
    var pixels: seq<Pixel>

    constructor ()
      ensures pixels == []
    {
      pixels := [];
    }

    method DrawPixel(x: int, y: int)
      modifies this
      ensures pixels == old(pixels) + [Pixel(x, y)]
    {
      pixels := pixels + [Pixel(x, y)];
    }

    /** drawLine: along an axis from the smaller coordinate to the larger one, else by Bresenham's loop, which ends at
        the other end after as many steps as the major axis is long. */
    method DrawLine(x1: int, y1: int, x2: int, y2: int)
      modifies this
      ensures old(pixels) <= pixels
      ensures var a, b := Pixel(x1, y1), Pixel(x2, y2);
              var drawn := pixels[|old(pixels)|..];
              if (x1 == x2 && y2 < y1) || (x1 != x2 && y1 == y2 && x2 < x1) then IsLine(drawn, b, a) else IsLine(drawn, a, b)
    {
      if x1 == x2 {
        DrawVertical(x1, if y2 < y1 then y2 else y1, if y2 < y1 then y1 else y2);
      } else if y1 == y2 {
        DrawHorizontal(y1, if x2 < x1 then x2 else x1, if x2 < x1 then x1 else x2);
      } else {
        DrawDiagonal(x1, y1, x2, y2);
      }
    }

    method DrawVertical(x: int, y1: int, y2: int)
      requires y1 <= y2
      modifies this
      ensures old(pixels) <= pixels && IsLine(pixels[|old(pixels)|..], Pixel(x, y1), Pixel(x, y2))
    {
      ghost var n := |pixels|;
      var y := y1;
      while y <= y2
        invariant y1 <= y <= y2 + 1 && old(pixels) <= pixels && |pixels| == n + (y - y1)
        invariant forall k {:trigger pixels[k]} :: n <= k < |pixels| ==> pixels[k] == Pixel(x, y1 + (k - n))
      {
        DrawPixel(x, y);
        y := y + 1;
      }
    }

    method DrawHorizontal(y: int, x1: int, x2: int)
      requires x1 <= x2
      modifies this
      ensures old(pixels) <= pixels && IsLine(pixels[|old(pixels)|..], Pixel(x1, y), Pixel(x2, y))
    {
      ghost var n := |pixels|;
      var x := x1;
      while x <= x2
        invariant x1 <= x <= x2 + 1 && old(pixels) <= pixels && |pixels| == n + (x - x1)
        invariant forall k {:trigger pixels[k]} :: n <= k < |pixels| ==> pixels[k] == Pixel(x1 + (k - n), y)
      {
        DrawPixel(x, y);
        x := x + 1;
      }
    }

    method DrawDiagonal(x1: int, y1: int, x2: int, y2: int)
      requires x1 != x2 && y1 != y2
      modifies this
      ensures old(pixels) <= pixels && IsLine(pixels[|old(pixels)|..], Pixel(x1, y1), Pixel(x2, y2))
    {
      hide At, TwiceOff, Neighbours, PixelAt, Chained, Within, IsLine;
      ghost var a, b := Pixel(x1, y1), Pixel(x2, y2);
      ghost var n := |pixels|;
      var dx: nat, dy: nat := Abs(x2 - x1), Abs(y2 - y1);
      ghost var major := Max(dx, dy);
      var sx, sy := if x1 < x2 then 1 else -1, if y1 < y2 then 1 else -1;
      var err := dx - dy;
      var x, y := x1, y1;
      ghost var i: nat, j: nat, f := 0, 0, 0;
      NoChain(a, b, major);
      assert pixels[n..] == [];
      FirstPixel(a, b);
      PixelWithin(a, b, 0, 0, 0, err);
      while true
        invariant At(dx, dy, i, j, f, err) && Pixel(x, y) == PixelAt(a, b, i, j)
        invariant old(pixels) <= pixels && |pixels| == n + if dx >= dy then i else j
        invariant Chained(pixels[n..], a, b, major)
        invariant if |pixels| == n then Pixel(x, y) == a else Neighbours(pixels[|pixels| - 1], Pixel(x, y))
        invariant Within(TwiceOff(a, b, Pixel(x, y)), major)
        decreases dx + dy - i - j
      {
        ChainMore(pixels[n..], a, b, major, Pixel(x, y));
        ghost var before := pixels;
        DrawPixel(x, y);
        assert pixels[n..] == before[n..] + [Pixel(x, y)];
        PixelWithin(a, b, i, j, f, err);
        if x == x2 && y == y2 {
          WholeLine(pixels[n..], a, b);
          break;
        }
        NextStep(dx, dy, i, j, f, err);
        NextPixel(a, b, i, j);
        var twiceErr := err * 2;
        if twiceErr >= 0 - dy {
          err := err - dy;
          x := x + sx;
          i, f := i + 1, f - dy;
        }
        if twiceErr <= dx {
          err := err + dx;
          y := y + sy;
          j, f := j + 1, f + dx;
        }
        PixelWithin(a, b, i, j, f, err);
      }
    }
  }

  // A part of a line.
  ghost predicate Chained(pixels: seq<Pixel>, a: Pixel, b: Pixel, major: nat) {
    && (pixels != [] ==> pixels[0] == a)
    && (forall k {:trigger pixels[k]} :: 0 <= k < |pixels| ==> Within(TwiceOff(a, b, pixels[k]), major))
    && (forall k {:trigger pixels[k]} :: 0 < k < |pixels| ==> Neighbours(pixels[k - 1], pixels[k]))
  }

  lemma {:induction false} NoChain(a: Pixel, b: Pixel, major: nat)
    ensures Chained([], a, b, major)
  {
  }

  lemma {:induction false} WholeLine(pixels: seq<Pixel>, a: Pixel, b: Pixel)
    requires var major := Max(Abs(b.x - a.x), Abs(b.y - a.y));
             Chained(pixels, a, b, major) && |pixels| == major + 1 && pixels[major] == b
    ensures IsLine(pixels, a, b)
  {
    hide TwiceOff, Neighbours;
  }

  lemma {:induction false} ChainMore(pixels: seq<Pixel>, a: Pixel, b: Pixel, major: nat, p: Pixel)
    requires Chained(pixels, a, b, major) && Within(TwiceOff(a, b, p), major)
    requires if pixels == [] then p == a else Neighbours(pixels[|pixels| - 1], p)
    ensures Chained(pixels + [p], a, b, major)
  {
    hide TwiceOff, Neighbours;
  }
}
