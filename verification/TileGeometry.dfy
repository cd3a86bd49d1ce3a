/**
 The integer geometry of the slippy map (demos/lightmaps/lightmaps.cpp:151-197,
 268-273): which 256-pixel tiles a viewport needs and where they are drawn.
 A map position is given in tiles, as `tileForCoordinate` returns it.
 */
module TileGeometry {
  const TDIM: int := 256

  datatype Point = Point(x: int, y: int)

  datatype Rect = Rect(left: int, top: int, width: int, height: int) {
    /** QRect::contains. */
    predicate Contains(p: Point) {
      left <= p.x < left + width && top <= p.y < top + height
    }

    /** QRect::intersects, for two rectangles that are not empty. */
    predicate Intersects(r: Rect) {
      && left < r.left + r.width && r.left < left + width
      && top < r.top + r.height && r.top < top + height
    }

    predicate Within(r: Rect) {
      && r.left <= left && left + width <= r.left + r.width
      && r.top <= top && top + height <= r.top + r.height
    }

    predicate NonEmpty() {
      width > 0 && height > 0
    }

    /** QRect::adjusted(-2, -2, 2, 2). */
    function Grown(): Rect {
      Rect(left - 2, top - 2, width + 4, height + 4)
    }
  }

  /** Integer division in C: towards zero. */
  function CDiv(a: int, b: int): int
    requires b > 0
  {
    if a < 0 then -((-a) / b) else a / b
  }

  /** Conversion of a floating value to int in C: towards zero. */
  function CInt(r: real): int {
    if r < 0.0 then -((-r).Floor) else r.Floor
  }

  function Fraction(t: real): real {
    t - t.Floor as real
  }

  /** One axis of the view: first tile, number of tiles, and where the first tile starts. */
  datatype Axis = Axis(first: int, count: int, offset: int)

  function AxisOf(size: int, t: real): Axis {
    var p := CInt(CDiv(size, 2) as real - Fraction(t) * TDIM as real);
    var a := CDiv(p + TDIM - 1, TDIM);
    var first := CInt(t) - a;
    var last := CInt(t) + CDiv(size - p - 1, TDIM);
    Axis(first, last - first + 1, p - a * TDIM)
  }

  /** Where tile column (or row) `k` starts on the screen. */
  function Start(a: Axis, k: int): int {
    (k - a.first) * TDIM + a.offset
  }

  /** The corner of the centre tile lies at most one tile left of the viewport's middle. */
  lemma CornerRange(size: int, f: real)
    requires size > 0 && 0.0 <= f < 1.0
    ensures var p := CInt(CDiv(size, 2) as real - f * TDIM as real);
            -TDIM < p <= size / 2
  {
    var r := CDiv(size, 2) as real - f * TDIM as real;
    assert -256.0 < r <= (size / 2) as real;
    if r < 0.0 {
      assert (-r).Floor as real <= -r;
    } else {
      assert r.Floor as real <= r;
    }
  }

  /** For every tile: it belongs to the view iff its interval meets the viewport's. */
  lemma AxisExact(size: int, t: real, k: int)
    requires size > 0
    ensures var a := AxisOf(size, t);
            && -TDIM < a.offset <= 0 && a.count >= 1
            && (a.first <= k < a.first + a.count <==> Start(a, k) < size && 0 < Start(a, k) + TDIM)
  {
    CornerRange(size, Fraction(t));
    var a := AxisOf(size, t);
    var p := CInt(CDiv(size, 2) as real - Fraction(t) * TDIM as real);
    var q := CDiv(p + TDIM - 1, TDIM);
    var r := CDiv(size - p - 1, TDIM);
    assert p <= q * TDIM < p + TDIM;
    assert r * TDIM <= size - p - 1 < (r + 1) * TDIM;
    assert a.count == r + q + 1;
    var j := k - a.first;
    assert Start(a, k) == j * TDIM + a.offset;
    assert j < a.count <==> j * TDIM + a.offset <= size - 1;
  }

  /** Every pixel lies in exactly one tile, and that tile belongs to the view. */
  lemma PixelCovered(size: int, t: real, px: int)
    requires 0 <= px < size
    ensures var a := AxisOf(size, t);
            var k := a.first + (px - a.offset) / TDIM;
            && a.first <= k < a.first + a.count
            && Start(a, k) <= px < Start(a, k) + TDIM
            && forall m :: Start(a, m) <= px < Start(a, m) + TDIM ==> m == k
  {
    var a := AxisOf(size, t);
    var k := a.first + (px - a.offset) / TDIM;
    AxisExact(size, t, k);
  }

  /** Where the map position itself is drawn. */
  function Drawn(a: Axis, t: real): real {
    Start(a, 0) as real + t * TDIM as real
  }

  /** The map position is drawn at the middle of the viewport, to the pixel. */
  ghost predicate Centred(size: int, t: real) {
    -1.0 < Drawn(AxisOf(size, t), t) - (size / 2) as real < 1.0
  }

  /** Where the position should be drawn: the middle, but a tile further left for one negative and not whole. */
  function Aim(size: int, t: real): int {
    size / 2 - if t < 0.0 && t != t.Floor as real then TDIM else 0
  }

  /**
   What is laid out, told by the tiles and the position alone: the tiles are those that
   meet the viewport, and the position is drawn where it is aimed at, the corner of its
   tile being cut off towards zero to a whole pixel.
   */
  ghost predicate LaidOut(size: int, t: real, a: Axis) {
    && -TDIM < a.offset <= 0 && a.count >= 1
    && (forall k :: a.first <= k < a.first + a.count <==> Start(a, k) < size && 0 < Start(a, k) + TDIM)
    && var off := Drawn(a, t) - Aim(size, t) as real;
       if (t - t.Floor as real) * TDIM as real <= (size / 2) as real then -1.0 < off <= 0.0 else 0.0 <= off < 1.0
  }

  lemma StartsAt(a: Axis, k: int)
    ensures Start(a, k) as real == Start(a, 0) as real + (k * TDIM) as real
  {
  }

  /** Cutting off towards zero changes a number by less than one, never past zero. */
  lemma CutOff(r: real)
    ensures r >= 0.0 ==> r - 1.0 < CInt(r) as real <= r
    ensures r <= 0.0 ==> r <= CInt(r) as real < r + 1.0
  {
    if r < 0.0 {
      assert (-r).Floor as real <= -r < (-r).Floor as real + 1.0;
    } else {
      assert r.Floor as real <= r < r.Floor as real + 1.0;
    }
  }

  /** Tile numbers are cut off towards zero while the fraction is taken downwards. */
  lemma TileOf(t: real)
    ensures CInt(t) == t.Floor + if t < 0.0 && t != t.Floor as real then 1 else 0
  {
    assert t.Floor as real <= t < t.Floor as real + 1.0;
    CutOff(t);
  }

  lemma DrawnAt(size: int, t: real)
    requires size > 0
    ensures var f := (t - t.Floor as real) * TDIM as real;
            Drawn(AxisOf(size, t), t) ==
            CInt((size / 2) as real - f) as real + f - (if t < 0.0 && t != t.Floor as real then TDIM else 0) as real
  {
    var a := AxisOf(size, t);
    var p := CInt(CDiv(size, 2) as real - Fraction(t) * TDIM as real);
    TileOf(t);
    StartsAt(a, t.Floor);
    assert Start(a, t.Floor) == p + (t.Floor - CInt(t)) * TDIM;
    assert t * TDIM as real == (t.Floor * TDIM) as real + Fraction(t) * TDIM as real;
  }

  /** The arithmetic lays an axis out as it should be. */
  lemma AxisLaidOut(size: int, t: real)
    requires size > 0
    ensures LaidOut(size, t, AxisOf(size, t))
  {
    forall k ensures var a := AxisOf(size, t);
                     a.first <= k < a.first + a.count <==> Start(a, k) < size && 0 < Start(a, k) + TDIM
    {
      AxisExact(size, t, k);
    }
    AxisExact(size, t, 0);
    DrawnAt(size, t);
    CutOff((size / 2) as real - (t - t.Floor as real) * TDIM as real);
  }

  lemma LastTile(size: int, t: real, a: Axis)
    requires LaidOut(size, t, a)
    ensures (a.count - 1) * TDIM + a.offset < size <= a.count * TDIM + a.offset
  {
    assert Start(a, a.first + a.count - 1) == (a.count - 1) * TDIM + a.offset;
    assert Start(a, a.first + a.count) == a.count * TDIM + a.offset;
  }

  /** And there is only one way to do so. */
  lemma LayoutUnique(size: int, t: real, a: Axis, b: Axis)
    requires LaidOut(size, t, a) && LaidOut(size, t, b)
    ensures a == b
  {
    assert Start(a, 0) == Start(b, 0);
    assert (a.first - b.first) * TDIM == a.offset - b.offset;
    assert a.first == b.first;
    LastTile(size, t, a);
    LastTile(size, t, b);
  }

  /** The view is centred on the position iff the position is non-negative or whole. */
  lemma CentredCriterion(size: int, t: real)
    requires size > 0
    ensures Centred(size, t) <==> t >= 0.0 || t == t.Floor as real
  {
    AxisLaidOut(size, t);
  }

  /** Half a tile left of the map's edge: the view is off its middle by a whole tile. */
  lemma NegativeOffCentre()
    ensures !Centred(400, -0.5) && Drawn(AxisOf(400, -0.5), -0.5) == (400 / 2 - TDIM) as real
  {
    assert (-0.5).Floor == -1 && Fraction(-0.5) == 0.5;
    assert CInt(-0.5) == 0 && CInt(200.0 - 128.0) == 72;
    assert AxisOf(400, -0.5) == Axis(-1, 3, -184);
  }

  // ---- Two axes -------------------------------------------------------------

  datatype View = View(tiles: Rect, offset: Point)

  function ViewOf(width: int, height: int, tx: real, ty: real): View {
    var h, v := AxisOf(width, tx), AxisOf(height, ty);
    View(Rect(h.first, v.first, h.count, v.count), Point(h.offset, v.offset))
  }

  /** `tileRect`. */
  function TileRect(view: View, tp: Point): Rect {
    Rect((tp.x - view.tiles.left) * TDIM + view.offset.x,
         (tp.y - view.tiles.top) * TDIM + view.offset.y, TDIM, TDIM)
  }

  /** The tiles of the view are exactly those that meet the viewport. */
  lemma TilesMeetViewport(width: int, height: int, tx: real, ty: real, tp: Point)
    requires width > 0 && height > 0
    ensures var view := ViewOf(width, height, tx, ty);
            && -TDIM < view.offset.x <= 0 && -TDIM < view.offset.y <= 0 && view.tiles.NonEmpty()
            && (view.tiles.Contains(tp) <==> TileRect(view, tp).Intersects(Rect(0, 0, width, height)))
  {
    AxisExact(width, tx, tp.x);
    AxisExact(height, ty, tp.y);
  }

  /** Every pixel of the viewport is painted by exactly one tile, a tile of the view. */
  lemma PixelInOneTile(width: int, height: int, tx: real, ty: real, p: Point)
    requires Rect(0, 0, width, height).Contains(p)
    ensures var view := ViewOf(width, height, tx, ty);
            exists tp :: view.tiles.Contains(tp) && TileRect(view, tp).Contains(p)
                         && forall other :: TileRect(view, other).Contains(p) ==> other == tp
  {
    var view := ViewOf(width, height, tx, ty);
    PixelCovered(width, tx, p.x);
    PixelCovered(height, ty, p.y);
    var tp := Point(view.tiles.left + (p.x - view.offset.x) / TDIM, view.tiles.top + (p.y - view.offset.y) / TDIM);
    assert view.tiles.Contains(tp) && TileRect(view, tp).Contains(p);
    forall other | TileRect(view, other).Contains(p)
      ensures other == tp
    {
      assert Start(AxisOf(width, tx), other.x) <= p.x < Start(AxisOf(width, tx), other.x) + TDIM;
      assert Start(AxisOf(height, ty), other.y) <= p.y < Start(AxisOf(height, ty), other.y) + TDIM;
    }
  }

  /** What both loops over tiles visit: one column and one row more than the view has. */
  function Window(tiles: Rect): Rect {
    Rect(tiles.left, tiles.top, tiles.width + 1, tiles.height + 1)
  }

  /** The extra column and row never show, and no tile showing in the dirty rectangle is skipped. */
  lemma DrawnExactly(width: int, height: int, tx: real, ty: real, dirty: Rect, tp: Point)
    requires dirty.NonEmpty() && dirty.Within(Rect(0, 0, width, height))
    ensures var view := ViewOf(width, height, tx, ty);
            dirty.Intersects(TileRect(view, tp)) ==> Window(view.tiles).Contains(tp) && view.tiles.Contains(tp)
  {
    TilesMeetViewport(width, height, tx, ty, tp);
  }
}
