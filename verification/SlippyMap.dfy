/**
 The tile loader of the slippy map (demos/lightmaps/lightmaps.cpp:151-262): one
 request at a time, a cache purged after every reply, and the coordinates (0, 0)
 doubling as "nothing to fetch".
 */
module SlippyMap {
  import opened Wrappers
  import opened FiniteSets
  import opened TileGeometry

  /** A downloaded image, or the grey stand-in for one that failed. */
  datatype Pixmap = FromImage(image: nat) | EmptyTile

  ghost function PointsOf(r: Rect): set<Point> {
    set x: int, y: int | r.left <= x < r.left + r.width && r.top <= y < r.top + r.height :: Point(x, y)
  }

  lemma PointsOfContains(r: Rect, p: Point)
    ensures p in PointsOf(r) <==> r.Contains(p)
  {
    if r.Contains(p) {
      assert Point(p.x, p.y) == p;
    }
  }

  lemma PointsOfSplit(r: Rect, a: Rect, b: Rect)
    requires forall p: Point :: r.Contains(p) <==> a.Contains(p) || b.Contains(p)
    requires forall p: Point :: !(a.Contains(p) && b.Contains(p))
    ensures |PointsOf(r)| == |PointsOf(a)| + |PointsOf(b)|
  {
    forall p ensures p in PointsOf(r) <==> p in PointsOf(a) + PointsOf(b) {
      PointsOfContains(r, p);
      PointsOfContains(a, p);
      PointsOfContains(b, p);
    }
    forall p ensures !(p in PointsOf(a) && p in PointsOf(b)) {
      PointsOfContains(a, p);
      PointsOfContains(b, p);
    }
    assert PointsOf(r) == PointsOf(a) + PointsOf(b);
  }

  lemma {:induction false} ColumnSize(r: Rect)
    requires r.width == 1 && r.height >= 0
    ensures |PointsOf(r)| == r.height
    decreases r.height
  {
    if r.height == 0 {
      assert PointsOf(r) == {};
    } else {
      var less, last := r.(height := r.height - 1), r.(top := r.top + r.height - 1, height := 1);
      ColumnSize(less);
      PointsOfSplit(r, less, last);
      assert PointsOf(last) == {Point(last.left, last.top)};
    }
  }

  lemma {:induction false} PointsOfSize(r: Rect)
    requires r.width >= 0 && r.height >= 0
    ensures |PointsOf(r)| == r.width * r.height
    decreases r.width
  {
    if r.width == 0 {
      assert PointsOf(r) == {};
    } else {
      var less, last := r.(width := r.width - 1), r.(left := r.left + r.width - 1, width := 1);
      PointsOfSize(less);
      ColumnSize(last);
      PointsOfSplit(r, less, last);
      assert r.width * r.height == (r.width - 1) * r.height + r.height;
    }
  }

  // ---- Which tile is requested ----------------------------------------------

  const NOTHING: Point := Point(0, 0)

  ghost function Missing(tiles: Rect, cached: set<Point>): set<Point> {
    PointsOf(Window(tiles)) - cached
  }

  /** The order of requests: columns from the right, each from the top. */
  predicate Sooner(a: Point, b: Point) {
    a.x > b.x || (a.x == b.x && a.y < b.y)
  }

  ghost predicate IsSoonest(missing: set<Point>, g: Point) {
    g in missing && forall m :: m in missing && m != g ==> Sooner(g, m)
  }

  lemma {:induction false} SoonestExists(missing: set<Point>)
    requires missing != {}
    ensures exists g :: IsSoonest(missing, g)
    decreases missing
  {
    var p :| p in missing;
    var rest := missing - {p};
    assert forall m :: m in missing ==> m == p || m in rest;
    if rest == {} {
      assert IsSoonest(missing, p);
    } else {
      SoonestExists(rest);
      var g :| IsSoonest(rest, g);
      assert IsSoonest(missing, if Sooner(p, g) then p else g);
    }
  }

  /** The tile `download` settles on; None when it leaves `m_url` empty. */
  ghost function NextRequest(tiles: Rect, cached: set<Point>): Option<Point> {
    var missing := Missing(tiles, cached);
    if missing == {} then None
    else
      SoonestExists(missing);
      var g :| IsSoonest(missing, g);
      if g == NOTHING then None else Some(g)
  }

  // ---- The loader as a state machine ----------------------------------------

  datatype Loader = Loader(tiles: Rect, cached: set<Point>, url: Option<Point>)

  /** A reply arrives: cache its tile, purge around the view, look for the next tile. */
  ghost function Reply(s: Loader): Loader
    requires s.url.Some?
  {
    var cached := (s.cached + {s.url.value}) * PointsOf(s.tiles.Grown());
    Loader(s.tiles, cached, NextRequest(s.tiles, cached))
  }

  /** The outstanding request, if any, is the one this view and cache call for. */
  ghost predicate Current(s: Loader) {
    s.url == NextRequest(s.tiles, s.cached)
  }

  ghost function MissingOf(s: Loader): set<Point> {
    Missing(s.tiles, s.cached)
  }

  /** Each reply takes exactly its own tile off the missing ones; the purge drops no window tile. */
  lemma ReplyShrinks(s: Loader)
    requires Current(s) && s.url.Some? && s.tiles.width >= 0 && s.tiles.height >= 0
    ensures Current(Reply(s)) && Reply(s).tiles == s.tiles
    ensures s.url.value in MissingOf(s) && MissingOf(Reply(s)) == MissingOf(s) - {s.url.value}
    ensures |MissingOf(Reply(s))| == |MissingOf(s)| - 1
    ensures s.cached * PointsOf(Window(s.tiles)) <= Reply(s).cached
  {
    var g := s.url.value;
    forall p | p in PointsOf(Window(s.tiles))
      ensures p in PointsOf(s.tiles.Grown())
    {
      PointsOfContains(Window(s.tiles), p);
      PointsOfContains(s.tiles.Grown(), p);
    }
    assert MissingOf(Reply(s)) == MissingOf(s) - {g};
  }

  /** After any reply, even one to a request for an earlier view, what lies within two tiles of the view stays. */
  lemma CacheKept(s: Loader)
    requires s.url.Some?
    ensures forall p: Point :: p in Reply(s).cached <==>
              && (p in s.cached || p == s.url.value)
              && s.tiles.left - 2 <= p.x < s.tiles.left + s.tiles.width + 2
              && s.tiles.top - 2 <= p.y < s.tiles.top + s.tiles.height + 2
  {
    forall p: Point ensures p in PointsOf(s.tiles.Grown()) <==> s.tiles.Grown().Contains(p) {
      PointsOfContains(s.tiles.Grown(), p);
    }
  }

  /** So the cache is bounded by the view. */
  lemma CacheBounded(s: Loader)
    requires s.url.Some? && s.tiles.width >= 0 && s.tiles.height >= 0
    ensures |Reply(s).cached| <= (s.tiles.width + 4) * (s.tiles.height + 4)
    ensures Current(Reply(s))
  {
    PointsOfSize(s.tiles.Grown());
    SubsetSize(Reply(s).cached, PointsOf(s.tiles.Grown()));
  }

  ghost function Replies(s: Loader, n: nat): Loader
    decreases n
  {
    if n == 0 || s.url.None? then s else Replies(Reply(s), n - 1)
  }

  /** The tiles requested before the scan lands on (0, 0). */
  ghost function Fetchable(missing: set<Point>): set<Point> {
    if NOTHING in missing then set m | m in missing && Sooner(m, NOTHING) else missing
  }

  lemma FetchableStep(missing: set<Point>, g: Point)
    requires IsSoonest(missing, g)
    ensures g == NOTHING ==> Fetchable(missing) == {}
    ensures g != NOTHING ==> g in Fetchable(missing) && Fetchable(missing - {g}) == Fetchable(missing) - {g}
  {
  }

  /** What an up-to-date `m_url` says about the missing tiles. */
  lemma CurrentRequest(s: Loader)
    requires Current(s)
    ensures s.url.Some? ==> s.url.value != NOTHING && IsSoonest(MissingOf(s), s.url.value)
    ensures s.url.None? && MissingOf(s) != {} ==> IsSoonest(MissingOf(s), NOTHING)
  {
  }

  ghost function FetchableOf(s: Loader): set<Point> {
    Fetchable(MissingOf(s))
  }

  /** A reply moves one tile from the fetchable ones into the cache and changes no other. */
  lemma ReplyFetches(s: Loader)
    requires Current(s) && s.url.Some? && s.tiles.width >= 0 && s.tiles.height >= 0
    ensures Current(Reply(s)) && Reply(s).tiles == s.tiles
    ensures FetchableOf(Reply(s)) == FetchableOf(s) - {s.url.value}
    ensures |FetchableOf(Reply(s))| == |FetchableOf(s)| - 1
    ensures MissingOf(Reply(s)) - FetchableOf(Reply(s)) == MissingOf(s) - FetchableOf(s)
  {
    CurrentRequest(s);
    ReplyShrinks(s);
    FetchableStep(MissingOf(s), s.url.value);
  }

  lemma NothingFetchable(s: Loader)
    requires Current(s)
    ensures s.url.None? <==> |FetchableOf(s)| == 0
  {
    CurrentRequest(s);
    if s.url.Some? {
      FetchableStep(MissingOf(s), s.url.value);
    } else if MissingOf(s) != {} {
      FetchableStep(MissingOf(s), NOTHING);
    }
  }

  lemma RepliesUnfold(s: Loader, n: nat)
    ensures s.url.None? ==> Replies(s, n) == s
    ensures s.url.Some? && n > 0 ==> Replies(s, n) == Replies(Reply(s), n - 1)
  {
  }

  lemma MinusEmpty(a: set<Point>, b: set<Point>)
    requires |b| == 0
    ensures a - b == a
  {
  }

  /**
   With the view fixed the loader fetches exactly the tiles it would request before
   (0, 0), one per reply, and then stops with an empty `m_url`.
   */
  lemma {:induction false} LoaderSettles(s: Loader, n: nat)
    requires Current(s) && s.tiles.width >= 0 && s.tiles.height >= 0
    requires n == |FetchableOf(s)|
    ensures var end := Replies(s, n);
            && end.url == None && end.tiles == s.tiles
            && MissingOf(end) == MissingOf(s) - FetchableOf(s)
    decreases n
  {
    NothingFetchable(s);
    RepliesUnfold(s, n);
    if n == 0 {
      MinusEmpty(MissingOf(s), FetchableOf(s));
    } else {
      ReplyFetches(s);
      LoaderSettles(Reply(s), n - 1);
    }
  }

  /** The view is completed, after one reply per missing tile, iff (0, 0) is not one of them. */
  lemma LoaderCompletes(s: Loader)
    requires Current(s) && s.tiles.width >= 0 && s.tiles.height >= 0
    ensures NOTHING !in MissingOf(s) ==>
              var end := Replies(s, |MissingOf(s)|); end.url == None && MissingOf(end) == {}
    ensures NOTHING in MissingOf(s) ==> forall n: nat :: MissingOf(Replies(s, n)) != {}
  {
    LoaderSettles(s, |FetchableOf(s)|);
    if NOTHING in MissingOf(s) {
      forall n: nat ensures NOTHING in MissingOf(Replies(s, n)) {
        NothingStaysMissing(s, n);
      }
    }
  }

  /** At zoom level 1 the map's middle lies on tile (0, 0), and a 400 by 300 view of it is never completed. */
  lemma TopLeftStalls(s: Loader)
    requires s.tiles == ViewOf(400, 300, 0.5, 0.5).tiles && s.cached == {} && Current(s)
    ensures s.tiles.Contains(NOTHING) && s.url.Some?
    ensures forall n: nat :: MissingOf(Replies(s, n)) != {}
  {
    assert Fraction(0.5) == 0.5 && CInt(200.0 - 128.0) == 72 && CInt(150.0 - 128.0) == 22;
    assert AxisOf(400, 0.5) == Axis(-1, 3, -184) && AxisOf(300, 0.5) == Axis(-1, 3, -234);
    PointsOfContains(Window(s.tiles), NOTHING);
    PointsOfContains(Window(s.tiles), Point(1, 0));
    assert Point(1, 0) in MissingOf(s) && !Sooner(NOTHING, Point(1, 0));
    CurrentRequest(s);
    LoaderCompletes(s);
  }

  lemma NothingNotFetched(s: Loader)
    requires Current(s) && s.url.Some? && s.tiles.width >= 0 && s.tiles.height >= 0
    requires NOTHING in MissingOf(s)
    ensures Current(Reply(s)) && Reply(s).tiles == s.tiles && NOTHING in MissingOf(Reply(s))
  {
    CurrentRequest(s);
    ReplyShrinks(s);
  }

  lemma {:induction false} NothingStaysMissing(s: Loader, n: nat)
    requires Current(s) && s.tiles.width >= 0 && s.tiles.height >= 0 && NOTHING in MissingOf(s)
    ensures NOTHING in MissingOf(Replies(s, n))
    decreases n
  {
    if n > 0 && s.url.Some? {
      NothingNotFetched(s);
      NothingStaysMissing(Reply(s), n - 1);
    }
  }

  /** QList::removeAll. */
  function RemoveAll(s: seq<Point>, p: Point): seq<Point> {
    if s == [] then [] else (if s[0] == p then [] else [s[0]]) + RemoveAll(s[1..], p)
  }

  // ---- What is drawn ----------------------------------------------------------

  datatype Drawing = Drawing(tile: Point, pixmap: Pixmap)

  ghost predicate Draws(drawn: seq<Drawing>, tp: Point) {
    exists i :: 0 <= i < |drawn| && drawn[i].tile == tp
  }

  /** No tile twice, and each with its own pixmap. */
  ghost predicate DrawnOnce(pixmaps: map<Point, Pixmap>, drawn: seq<Drawing>) {
    && (forall i, j :: 0 <= i < j < |drawn| ==> drawn[i].tile != drawn[j].tile)
    && forall i :: 0 <= i < |drawn| ==>
         drawn[i].pixmap == if drawn[i].tile in pixmaps then pixmaps[drawn[i].tile] else EmptyTile
  }

  /** The tiles drawn are those of the window that meet the dirty rectangle. */
  ghost predicate Rendered(view: View, dirty: Rect, pixmaps: map<Point, Pixmap>, drawn: seq<Drawing>) {
    && DrawnOnce(pixmaps, drawn)
    && forall tp :: Draws(drawn, tp) <==> Window(view.tiles).Contains(tp) && dirty.Intersects(TileRect(view, tp))
  }

  /** The tiles before row `y` of column `x`. */
  predicate Scanned(view: View, x: int, y: int, tp: Point) {
    && view.tiles.left <= tp.x && view.tiles.top <= tp.y < view.tiles.top + view.tiles.height + 1
    && (tp.x < view.tiles.left + x || (tp.x == view.tiles.left + x && tp.y < view.tiles.top + y))
  }

  ghost predicate DrawnUpTo(view: View, dirty: Rect, pixmaps: map<Point, Pixmap>, drawn: seq<Drawing>, x: int, y: int) {
    && DrawnOnce(pixmaps, drawn)
    && forall tp :: Draws(drawn, tp) <==> Scanned(view, x, y, tp) && dirty.Intersects(TileRect(view, tp))
  }

  lemma DrawnNext(view: View, dirty: Rect, pixmaps: map<Point, Pixmap>, before: seq<Drawing>, after: seq<Drawing>,
                  x: int, y: int)
    requires DrawnUpTo(view, dirty, pixmaps, before, x, y) && 0 <= x && 0 <= y <= view.tiles.height
    requires var tp := Point(x + view.tiles.left, y + view.tiles.top);
             var image := if tp in pixmaps then pixmaps[tp] else EmptyTile;
             after == before + if dirty.Intersects(TileRect(view, tp)) then [Drawing(tp, image)] else []
    ensures DrawnUpTo(view, dirty, pixmaps, after, x, y + 1)
  {
    var next := Point(x + view.tiles.left, y + view.tiles.top);
    assert !Draws(before, next);
    forall tp ensures Draws(after, tp) <==> Scanned(view, x, y + 1, tp) && dirty.Intersects(TileRect(view, tp)) {
      assert Scanned(view, x, y + 1, tp) <==> Scanned(view, x, y, tp) || tp == next;
      if Draws(before, tp) {
        var i :| 0 <= i < |before| && before[i].tile == tp;
        assert after[i].tile == tp;
      }
      if tp == next && |after| > |before| {
        assert after[|before|].tile == tp;
      }
    }
  }

  lemma RowDone(view: View, dirty: Rect, pixmaps: map<Point, Pixmap>, drawn: seq<Drawing>, x: int)
    requires DrawnUpTo(view, dirty, pixmaps, drawn, x, view.tiles.height + 1)
    ensures DrawnUpTo(view, dirty, pixmaps, drawn, x + 1, 0)
  {
    forall tp ensures Draws(drawn, tp) <==> Scanned(view, x + 1, 0, tp) && dirty.Intersects(TileRect(view, tp)) {
      assert Scanned(view, x + 1, 0, tp) <==> Scanned(view, x, view.tiles.height + 1, tp);
    }
  }

  /**
   On the view that `invalidate` lays out, rendering a dirty part of the viewport draws
   every tile that meets it and no other, and paints each of its pixels exactly once.
   */
  lemma RenderedExactly(width: int, height: int, tx: real, ty: real, dirty: Rect,
                        pixmaps: map<Point, Pixmap>, drawn: seq<Drawing>, p: Point)
    requires dirty.NonEmpty() && dirty.Within(Rect(0, 0, width, height)) && dirty.Contains(p)
    requires Rendered(ViewOf(width, height, tx, ty), dirty, pixmaps, drawn)
    ensures var view := ViewOf(width, height, tx, ty);
            && (forall tp :: Draws(drawn, tp) <==> dirty.Intersects(TileRect(view, tp)))
            && (forall tp :: Draws(drawn, tp) ==> view.tiles.Contains(tp))
            && exists i :: 0 <= i < |drawn| && TileRect(view, drawn[i].tile).Contains(p)
                           && forall j :: 0 <= j < |drawn| && TileRect(view, drawn[j].tile).Contains(p) ==> j == i
  {
    var view := ViewOf(width, height, tx, ty);
    forall tp ensures dirty.Intersects(TileRect(view, tp)) ==>
                        Window(view.tiles).Contains(tp) && view.tiles.Contains(tp)
    {
      DrawnExactly(width, height, tx, ty, dirty, tp);
    }
    PixelInOneTile(width, height, tx, ty, p);
    var tp :| view.tiles.Contains(tp) && TileRect(view, tp).Contains(p)
              && forall other :: TileRect(view, other).Contains(p) ==> other == tp;
    assert dirty.Intersects(TileRect(view, tp)) && Draws(drawn, tp);
    var i :| 0 <= i < |drawn| && drawn[i].tile == tp;
    forall j | 0 <= j < |drawn| && TileRect(view, drawn[j].tile).Contains(p) ensures j == i {
      assert drawn[j].tile == tp;
    }
  }

  // ---- The object -----------------------------------------------------------

  class SlippyMap {
    var width: int
    var height: int
    var offset: Point
    var tilesRect: Rect
    var tilePixmaps: map<Point, Pixmap>
    var url: Option<Point>
    var pendingReplies: seq<Point>

    /**
     One request is outstanding exactly while `m_url` is set, and while it is not,
     `download` would find nothing to request: no view waits unattended.
     */
    ghost predicate Valid()
      reads this
    {
      && (url.None? ==> Current(State()))
      && tilesRect.width >= 0 && tilesRect.height >= 0
      && pendingReplies == if url.Some? then [url.value] else []
    }

    ghost function State(): Loader
      reads this
    {
      Loader(tilesRect, tilePixmaps.Keys, url)
    }

    constructor ()
      ensures Valid() && width == 400 && height == 300
      ensures State() == Loader(Rect(0, 0, 0, 0), {}, None)
    {
      assert Missing(Rect(0, 0, 0, 0), {}) == {NOTHING};
      width, height := 400, 300;
      offset, tilesRect := Point(0, 0), Rect(0, 0, 0, 0);
      tilePixmaps, url, pendingReplies := map[], None, [];
    }

    /** Not in the cache, and of the view or of the one column and row more that the loops take in. */
    ghost predicate Wanted(m: Point)
      reads this`tilesRect, this`tilePixmaps
    {
      && tilesRect.left <= m.x <= tilesRect.left + tilesRect.width
      && tilesRect.top <= m.y <= tilesRect.top + tilesRect.height && m !in tilePixmaps
    }

    /** The topmost such tile of the rightmost column that has one. */
    ghost predicate GrabsFirst(g: Point)
      reads this`tilesRect, this`tilePixmaps
    {
      Wanted(g) && forall m :: Wanted(m) && m != g ==> m.x < g.x || (m.x == g.x && m.y > g.y)
    }

    /** The inner loop of `download`: the topmost missing tile of a column, if it misses one. */
    method ScanColumn(x: int, before: Point) returns (grab: Point, broke: bool)
      requires tilesRect.height >= 0 && tilesRect.left <= x <= tilesRect.left + tilesRect.width
      ensures var missing := Missing(tilesRect, tilePixmaps.Keys);
              if broke then
                grab in missing && grab.x == x && forall m :: m in missing && m.x == x && m != grab ==> m.y > grab.y
              else
                grab == before && forall m :: m in missing ==> m.x != x
    {
      ghost var missing := Missing(tilesRect, tilePixmaps.Keys);
      grab, broke := before, false;
      var y := 0;
      while y <= tilesRect.height && !broke
        invariant 0 <= y <= tilesRect.height + 1
        invariant !broke ==> grab == before
        invariant !broke ==> forall m :: m in missing && m.x == x ==> m.y >= tilesRect.top + y
        invariant broke ==> grab in missing && grab.x == x
        invariant broke ==> forall m :: m in missing && m.x == x && m != grab ==> m.y > grab.y
        decreases tilesRect.height + 1 - y, !broke
      {
        var tp := Point(x, tilesRect.top + y);
        PointsOfContains(Window(tilesRect), tp);
        if tp !in tilePixmaps {
          grab := tp;
          broke := true;
        } else {
          y := y + 1;
        }
      }
      if !broke {
        forall m | m in missing ensures m.y < tilesRect.top + tilesRect.height + 1 {
          PointsOfContains(Window(tilesRect), m);
        }
      }
    }

    /** The loops of `download`, with the `break` out of the inner one only. */
    method Scan() returns (grab: Point)
      requires tilesRect.width >= 0 && tilesRect.height >= 0
      ensures var missing := Missing(tilesRect, tilePixmaps.Keys);
              if missing == {} then grab == NOTHING else IsSoonest(missing, grab)
    {
      grab := Point(0, 0);
      ghost var missing := Missing(tilesRect, tilePixmaps.Keys);
      forall m | m in missing ensures tilesRect.left <= m.x < tilesRect.left + tilesRect.width + 1 {
        PointsOfContains(Window(tilesRect), m);
      }
      for x := 0 to tilesRect.width + 1
        invariant || (grab == NOTHING && forall m :: m in missing ==> m.x >= tilesRect.left + x)
                  || (grab in missing && grab.x < tilesRect.left + x &&
                      forall m :: m in missing && m != grab && m.x < tilesRect.left + x ==> Sooner(grab, m))
      {
        var broke;
        grab, broke := ScanColumn(tilesRect.left + x, grab);
      }
    }

    /** `download`: the tile the loops end with is requested, unless it is (0, 0). */
    method Download()
      requires tilesRect.width >= 0 && tilesRect.height >= 0
      modifies this`url, this`pendingReplies
      ensures url == NextRequest(tilesRect, tilePixmaps.Keys)
      ensures url.Some? ==> url.value != Point(0, 0) && GrabsFirst(url.value)
      ensures url.None? ==> GrabsFirst(Point(0, 0)) || forall m :: !Wanted(m)
      ensures pendingReplies == if url.Some? then old(pendingReplies) + [url.value] else old(pendingReplies)
    {
      forall m ensures Wanted(m) <==> m in Missing(tilesRect, tilePixmaps.Keys) {
        PointsOfContains(Window(tilesRect), m);
      }
      var grab := Scan();
      if grab == Point(0, 0) {
        url := None;
        return;
      }
      url := Some(grab);
      pendingReplies := pendingReplies + [grab];
    }

    /** One axis of `invalidate`, statement by statement. */
    method LayoutAxis(size: int, t: real) returns (start: int, count: int, off: int)
      ensures Axis(start, count, off) == AxisOf(size, t)
    {
      var p := CInt(CDiv(size, 2) as real - Fraction(t) * TDIM as real);
      var a := CDiv(p + TDIM - 1, TDIM);
      start := CInt(t) - a;
      off := p - a * TDIM;
      var end := CInt(t) + CDiv(size - p - 1, TDIM);
      count := end - start + 1;
    }

    /** Both of them. */
    method Layout(tx: real, ty: real)
      requires width > 0 && height > 0
      modifies this`offset, this`tilesRect
      ensures View(tilesRect, offset) == ViewOf(width, height, tx, ty)
    {
      var xs, columns, xo := LayoutAxis(width, tx);
      var ys, rows, yo := LayoutAxis(height, ty);
      offset := Point(xo, yo);
      tilesRect := Rect(xs, ys, columns, rows);
    }

    /** `invalidate`, for the centre at `(tx, ty)` in tile coordinates. */
    method Invalidate(tx: real, ty: real)
      requires Valid()
      modifies this`offset, this`tilesRect, this`url, this`pendingReplies
      ensures Valid()
      ensures width <= 0 || height <= 0 ==>
                State() == old(State()) && offset == old(offset)
      ensures width > 0 && height > 0 ==> View(tilesRect, offset) == ViewOf(width, height, tx, ty)
      ensures width > 0 && height > 0 ==>
                && LaidOut(width, tx, Axis(tilesRect.left, tilesRect.width, offset.x))
                && LaidOut(height, ty, Axis(tilesRect.top, tilesRect.height, offset.y))
      ensures width > 0 && height > 0 ==>
                url == if old(url).Some? then old(url) else NextRequest(tilesRect, tilePixmaps.Keys)
    {
      if width <= 0 || height <= 0 {
        return;
      }
      Layout(tx, ty);
      AxisLaidOut(width, tx);
      AxisLaidOut(height, ty);
      if url.None? {
        Download();
      }
    }

    /** `resizeEvent`: new size, then `invalidate`. */
    method Resize(w: int, h: int, tx: real, ty: real)
      requires Valid()
      modifies this`width, this`height, this`offset, this`tilesRect, this`url, this`pendingReplies
      ensures Valid() && width == w && height == h
      ensures w > 0 && h > 0 ==> View(tilesRect, offset) == ViewOf(w, h, tx, ty)
      ensures w > 0 && h > 0 ==>
                && LaidOut(w, tx, Axis(tilesRect.left, tilesRect.width, offset.x))
                && LaidOut(h, ty, Axis(tilesRect.top, tilesRect.height, offset.y))
      ensures w <= 0 || h <= 0 ==> State() == old(State())
    {
      width, height := w, h;
      Invalidate(tx, ty);
    }

    /** `handleNetworkData`: `image` is None when the reply failed or did not decode. */
    method HandleNetworkData(tp: Point, image: Option<nat>)
      requires Valid() && tp in pendingReplies
      modifies this`tilePixmaps, this`url, this`pendingReplies
      ensures Valid() && old(url) == Some(tp)
      ensures State() == Reply(old(State()))
      ensures forall p :: p in tilePixmaps <==>
                && (p in old(tilePixmaps) || p == tp)
                && tilesRect.left - 2 <= p.x < tilesRect.left + tilesRect.width + 2
                && tilesRect.top - 2 <= p.y < tilesRect.top + tilesRect.height + 2
      ensures forall p :: p in tilePixmaps ==>
                tilePixmaps[p] == if p != tp then old(tilePixmaps)[p]
                                  else if image.Some? then FromImage(image.value) else EmptyTile
    {
      assert pendingReplies == [tp] && [tp][1..] == [] && RemoveAll([tp], tp) == [];
      pendingReplies := RemoveAll(pendingReplies, tp);
      tilePixmaps := tilePixmaps[tp := if image.Some? then FromImage(image.value) else EmptyTile];
      var bound := tilesRect.Grown();
      forall p ensures p in PointsOf(bound) <==> bound.Contains(p) {
        PointsOfContains(bound, p);
      }
      tilePixmaps := map p | p in tilePixmaps && bound.Contains(p) :: tilePixmaps[p];
      assert tilePixmaps.Keys == (old(tilePixmaps).Keys + {tp}) * PointsOf(bound);
      Download();
    }

    /** `render`: what is drawn, in order. */
    method Render(dirty: Rect) returns (drawn: seq<Drawing>)
      requires Valid()
      ensures Rendered(View(tilesRect, offset), dirty, tilePixmaps, drawn)
      ensures forall tp: Point :: Draws(drawn, tp) <==>
                && tilesRect.left <= tp.x <= tilesRect.left + tilesRect.width
                && tilesRect.top <= tp.y <= tilesRect.top + tilesRect.height
                && dirty.Intersects(TileRect(View(tilesRect, offset), tp))
    {
      drawn := [];
      var view := View(tilesRect, offset);
      for x := 0 to tilesRect.width + 1
        invariant DrawnUpTo(view, dirty, tilePixmaps, drawn, x, 0)
      {
        for y := 0 to tilesRect.height + 1
          invariant DrawnUpTo(view, dirty, tilePixmaps, drawn, x, y)
        {
          var tp := Point(x + tilesRect.left, y + tilesRect.top);
          var box := TileRect(view, tp);
          ghost var before := drawn;
          if dirty.Intersects(box) {
            drawn := drawn + [Drawing(tp, if tp in tilePixmaps then tilePixmaps[tp] else EmptyTile)];
          }
          DrawnNext(view, dirty, tilePixmaps, before, drawn, x, y);
        }
        RowDone(view, dirty, tilePixmaps, drawn, x);
      }
    }
  }
}
