/** `triangle_pixels` and `quad_colours`: the four sampled regions of a tile
    and their mean colours. Despite the name, every region is an axis-aligned
    rectangle. */
module QuadrantSampler {
  import opened Pixels
  import opened Geometry
  import opened Bitmap
  import opened Averaging
  import opened Arith

  datatype Side = Top | Left | Bottom | Right

  /** The tile square [x, x + ts) x [y, y + ts) with origin `o`. */
  function TileRect(o: Point, ts: int): Rect
  {
    Rect(o.x, o.y, o.x + ts, o.y + ts)
  }

  /** The tile lies inside the source image. */
  predicate TileInImage(img: Image, ts: int, o: Point)
  {
    0 <= o.x && 0 <= o.y && o.x + ts <= img.width && o.y + ts <= img.height
  }

  /** The rectangle from `p1` to `p2` that `triangle_pixels` builds for a side,
      with `quad_size = tile_size / 2`. */
  function QuadRect(o: Point, ts: int, side: Side): Rect
  {
    var q := ts / 2;
    match side
    case Top => Rect(o.x, o.y, o.x + ts, o.y + q)
    case Left => Rect(o.x, o.y, o.x + q, o.y + ts)
    case Bottom => Rect(o.x, o.y + q, o.x + ts, o.y + ts)
    case Right => Rect(o.x + q, o.y, o.x + ts, o.y + ts)
  }

  /** Each region lies within its tile. */
  lemma QuadRectWithinTile(o: Point, ts: int, side: Side)
    requires ts >= 0
    ensures QuadRect(o, ts, side).Within(TileRect(o, ts))
  {
  }

  /** The sizes of the four regions: a full-width or full-height band of
      `ts / 2` for Top and Left, and the remaining `ts - ts / 2` (one more
      when `ts` is odd) for Bottom and Right. */
  lemma QuadSizes(o: Point, ts: int)
    requires ts >= 0
    ensures QuadRect(o, ts, Top).Width() == ts && QuadRect(o, ts, Top).Height() == ts / 2
    ensures QuadRect(o, ts, Left).Width() == ts / 2 && QuadRect(o, ts, Left).Height() == ts
    ensures QuadRect(o, ts, Bottom).Width() == ts && QuadRect(o, ts, Bottom).Height() == ts - ts / 2
    ensures QuadRect(o, ts, Right).Width() == ts - ts / 2 && QuadRect(o, ts, Right).Height() == ts
    ensures ts - ts / 2 == if ts % 2 == 0 then ts / 2 else ts / 2 + 1
  {
  }

  /** Top and Bottom split the tile: every point of the tile is in exactly one
      of them, and no other point is in either. */
  lemma TopBottomPartition(o: Point, ts: int, p: Point)
    requires ts >= 0
    ensures TileRect(o, ts).Contains(p) <==>
      (QuadRect(o, ts, Top).Contains(p) || QuadRect(o, ts, Bottom).Contains(p))
    ensures !(QuadRect(o, ts, Top).Contains(p) && QuadRect(o, ts, Bottom).Contains(p))
  {
  }

  /** Left and Right split the tile in the same way. */
  lemma LeftRightPartition(o: Point, ts: int, p: Point)
    requires ts >= 0
    ensures TileRect(o, ts).Contains(p) <==>
      (QuadRect(o, ts, Left).Contains(p) || QuadRect(o, ts, Right).Contains(p))
    ensures !(QuadRect(o, ts, Left).Contains(p) && QuadRect(o, ts, Right).Contains(p))
  {
  }

  /** The pixels of one region, in the order the nested loop collects them. */
  function QuadPixels(img: Image, ts: int, o: Point, side: Side): seq<Pixel>
  {
    Read(img, RectCoords(QuadRect(o, ts, side)))
  }

  /** The collected list has exactly width x height pixels, and position `i`
      holds the pixel at the `i`-th point visited, each point of the region
      visited once. */
  lemma QuadPixelsAreRegion(img: Image, ts: int, o: Point, side: Side)
    ensures var r := QuadRect(o, ts, side);
      |QuadPixels(img, ts, o, side)| == r.Width() * r.Height() &&
      Distinct(RectCoords(r)) &&
      (forall p :: p in RectCoords(r) <==> r.Contains(p))
  {
    var r := QuadRect(o, ts, side);
    RectCoordsLength(r);
    RectCoordsDistinct(r);
    forall p ensures p in RectCoords(r) <==> r.Contains(p) {
      RectCoordsMembers(r, p);
    }
  }

  lemma ColumnStep(x: int, y0: int, y: int)
    requires y0 <= y
    ensures ColumnCoords(x, y0, y + 1) == ColumnCoords(x, y0, y) + [Point(x, y)]
  {
  }

  /** `triangle_pixels(tile_x, tile_y, side)`: collects the region's pixels
      column by column through `get_pixel`, every read inside the image. */
  method TrianglePixels(img: Image, ts: int, tileX: int, tileY: int, side: Side)
    returns (pixels: seq<Pixel>)
    requires ts >= 0 && TileInImage(img, ts, Point(tileX, tileY))
    ensures pixels == QuadPixels(img, ts, Point(tileX, tileY), side)
  {
    var r := QuadRect(Point(tileX, tileY), ts, side);
    QuadRectWithinTile(Point(tileX, tileY), ts, side);
    pixels := [];
    ghost var visited: seq<Point> := [];
    var x := r.x0;
    while x < r.x1
      invariant r.x0 <= x <= r.x1
      invariant visited == RectCoords(r.(x1 := x))
      invariant pixels == Read(img, visited)
    {
      var y := r.y0;
      ghost var column: seq<Point> := [];
      while y < r.y1
        invariant r.y0 <= y <= r.y1
        invariant column == ColumnCoords(x, r.y0, y)
        invariant pixels == Read(img, visited + column)
      {
        ColumnStep(x, r.y0, y);
        ReadExtend(img, visited, column, Point(x, y));
        pixels := pixels + [img.GetPixel(x, y)];
        column := column + [Point(x, y)];
        y := y + 1;
      }
      assert r.(x1 := x + 1).(x1 := x) == r.(x1 := x);
      visited := visited + column;
      x := x + 1;
    }
    assert r.(x1 := r.x1) == r;
  }

  /** The four mean colours of a tile. */
  datatype Quad = Quad(top: Pixel, left: Pixel, bottom: Pixel, right: Pixel)
  {
    function Colour(side: Side): Pixel
    {
      match side
      case Top => top
      case Left => left
      case Bottom => bottom
      case Right => right
    }
  }

  /** The mean colours of the four regions, or the division by zero of the
      first empty one. */
  function QuadMeans(img: Image, ts: int, o: Point): Result<Quad>
  {
    var t, l, b, r :=
      Average(QuadPixels(img, ts, o, Top)), Average(QuadPixels(img, ts, o, Left)),
      Average(QuadPixels(img, ts, o, Bottom)), Average(QuadPixels(img, ts, o, Right));
    if t.Err? then Err(t.error)
    else if l.Err? then Err(l.error)
    else if b.Err? then Err(b.error)
    else if r.Err? then Err(r.error)
    else Ok(Quad(t.value, l.value, b.value, r.value))
  }

  /** Sampling succeeds exactly when every region is non-empty, which for a
      positive tile size means `ts >= 2`; with `ts == 1` the Top region has
      height 0 and averaging it divides by zero. On success each colour is
      the mean of its region. */
  lemma QuadMeansOk(img: Image, ts: int, o: Point)
    requires ts >= 1
    ensures QuadMeans(img, ts, o).Ok? <==> ts >= 2
    ensures ts == 1 ==> QuadPixels(img, ts, o, Top) == [] && QuadMeans(img, ts, o) == Err(DivideByZero)
    ensures QuadMeans(img, ts, o).Ok? ==> forall side ::
      Average(QuadPixels(img, ts, o, side)) == Ok(QuadMeans(img, ts, o).value.Colour(side))
  {
    QuadSizes(o, ts);
    forall side ensures |QuadPixels(img, ts, o, side)| == QuadRect(o, ts, side).Width() * QuadRect(o, ts, side).Height() {
      QuadPixelsAreRegion(img, ts, o, side);
    }
    if ts >= 2 {
      forall side ensures QuadPixels(img, ts, o, side) != [] {
        assert QuadRect(o, ts, side).Width() >= 1 && QuadRect(o, ts, side).Height() >= 1;
        PositiveProduct(QuadRect(o, ts, side).Width(), QuadRect(o, ts, side).Height());
      }
    }
  }

  /** `quad_colours(tile_x, tile_y)`: top, left, bottom, right in that order,
      each averaged as soon as it is collected. */
  method QuadColours(img: Image, ts: int, tileX: int, tileY: int) returns (r: Result<Quad>)
    requires ts >= 0 && TileInImage(img, ts, Point(tileX, tileY))
    ensures r == QuadMeans(img, ts, Point(tileX, tileY))
  {
    var pixels := TrianglePixels(img, ts, tileX, tileY, Top);
    var top := AverageColor(pixels);
    if top.Err? { return Err(top.error); }
    pixels := TrianglePixels(img, ts, tileX, tileY, Left);
    var left := AverageColor(pixels);
    if left.Err? { return Err(left.error); }
    pixels := TrianglePixels(img, ts, tileX, tileY, Bottom);
    var bottom := AverageColor(pixels);
    if bottom.Err? { return Err(bottom.error); }
    pixels := TrianglePixels(img, ts, tileX, tileY, Right);
    var right := AverageColor(pixels);
    if right.Err? { return Err(right.error); }
    r := Ok(Quad(top.value, left.value, bottom.value, right.value));
  }

  /** A region's pixels depend only on the image inside the tile. */
  lemma QuadPixelsLocal(img: Image, img': Image, ts: int, o: Point, side: Side)
    requires ts >= 0
    requires forall p :: TileRect(o, ts).Contains(p) ==> img.pixel(p.x, p.y) == img'.pixel(p.x, p.y)
    ensures QuadPixels(img, ts, o, side) == QuadPixels(img', ts, o, side)
  {
    var cs := RectCoords(QuadRect(o, ts, side));
    forall i | 0 <= i < |cs| ensures img.pixel(cs[i].x, cs[i].y) == img'.pixel(cs[i].x, cs[i].y) {
      RectCoordsMembers(QuadRect(o, ts, side), cs[i]);
      QuadRectWithinTile(o, ts, side);
    }
    ReadLocal(img, img', cs);
  }
}
