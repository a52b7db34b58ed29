/** `process_tile`: choose the diagonal along which a tile is split and draw
    its two flat-coloured triangles. */
module TileRenderer {
  import opened Pixels
  import opened Geometry
  import opened Bitmap
  import opened Averaging
  import opened HueMath
  import opened QuadrantSampler

  function TopLeft(o: Point, ts: int): Point { o }
  function TopRight(o: Point, ts: int): Point { Point(o.x + ts, o.y) }
  function BottomLeft(o: Point, ts: int): Point { Point(o.x, o.y + ts) }
  function BottomRight(o: Point, ts: int): Point { Point(o.x + ts, o.y + ts) }

  function Corners(o: Point, ts: int): set<Point>
  {
    {TopLeft(o, ts), TopRight(o, ts), BottomLeft(o, ts), BottomRight(o, ts)}
  }

  /** `average_color([a, b])`, which never divides by zero. */
  function Blend(a: Pixel, b: Pixel): Pixel
  {
    Average([a, b]).value
  }

  /** The rule of `process_tile`: split along the anti-diagonal (top-right to
      bottom-left) exactly when top is strictly farther in hue from left than
      from right; a tie keeps the main diagonal. */
  predicate AntiDiagonalSplit(q: Quad, chroma: Pixel -> Degrees)
  {
    Distance(q.top, q.left, chroma) > Distance(q.top, q.right, chroma)
  }

  /** The two polygon calls `process_tile` makes for one tile, each with the
      same stroke and fill colour. */
  function SplitCommands(q: Quad, o: Point, ts: int, chroma: Pixel -> Degrees): seq<DrawCommand>
  {
    var tl, tr, bl, br := TopLeft(o, ts), TopRight(o, ts), BottomLeft(o, ts), BottomRight(o, ts);
    if AntiDiagonalSplit(q, chroma) then
      var c1, c2 := Blend(q.top, q.left), Blend(q.bottom, q.right);
      [Polygon([tl, tr, bl], c1, c1), Polygon([tr, bl, br], c2, c2)]
    else
      var c1, c2 := Blend(q.top, q.right), Blend(q.bottom, q.left);
      [Polygon([tl, tr, br], c1, c1), Polygon([tl, bl, br], c2, c2)]
  }

  /** What one tile draws, or the division by zero its sampling raised. */
  function TileCommands(img: Image, ts: int, chroma: Pixel -> Degrees, o: Point): Result<seq<DrawCommand>>
  {
    match QuadMeans(img, ts, o)
    case Err(e) => Err(e)
    case Ok(q) => Ok(SplitCommands(q, o, ts, chroma))
  }

  function Points(path: seq<Point>): set<Point>
  {
    set i | 0 <= i < |path| :: path[i]
  }

  lemma PointsOfTriangle(a: Point, b: Point, c: Point)
    ensures Points([a, b, c]) == {a, b, c}
  {
    assert [a, b, c][0] == a && [a, b, c][1] == b && [a, b, c][2] == c;
  }

  /** The two corners at the ends of a side of the tile. */
  function Edge(side: Side, o: Point, ts: int): set<Point>
  {
    match side
    case Top => {TopLeft(o, ts), TopRight(o, ts)}
    case Left => {TopLeft(o, ts), BottomLeft(o, ts)}
    case Bottom => {BottomLeft(o, ts), BottomRight(o, ts)}
    case Right => {TopRight(o, ts), BottomRight(o, ts)}
  }

  const AllSides: set<Side> := {Top, Left, Bottom, Right}

  /** The sides of the tile that a triangle has as one of its own edges. */
  function BorderedSides(path: seq<Point>, o: Point, ts: int): set<Side>
  {
    set s | s in AllSides && Edge(s, o, ts) <= Points(path)
  }

  /** Each tile becomes two triangles with identical stroke and fill, made of
      tile corners: together they use all four corners and they share exactly
      two, one diagonal, which is the anti-diagonal exactly when the strict
      comparison holds. */
  lemma SplitGeometry(q: Quad, o: Point, ts: int, chroma: Pixel -> Degrees)
    requires ts >= 1
    ensures var cmds := SplitCommands(q, o, ts, chroma);
      |cmds| == 2 &&
      (forall k :: 0 <= k < 2 ==> |cmds[k].path| == 3 && |Points(cmds[k].path)| == 3 && cmds[k].stroke == cmds[k].fill) &&
      Points(cmds[0].path) + Points(cmds[1].path) == Corners(o, ts) &&
      Points(cmds[0].path) * Points(cmds[1].path) ==
        (if AntiDiagonalSplit(q, chroma) then {TopRight(o, ts), BottomLeft(o, ts)}
         else {TopLeft(o, ts), BottomRight(o, ts)})
  {
    var tl, tr, bl, br := TopLeft(o, ts), TopRight(o, ts), BottomLeft(o, ts), BottomRight(o, ts);
    var cmds := SplitCommands(q, o, ts, chroma);
    if AntiDiagonalSplit(q, chroma) {
      PointsOfTriangle(tl, tr, bl);
      PointsOfTriangle(tr, bl, br);
    } else {
      PointsOfTriangle(tl, tr, br);
      PointsOfTriangle(tl, bl, br);
    }
  }

  /** The two possible shared diagonals are different, so the comparison
      alone decides which one is drawn. */
  lemma DiagonalsDiffer(o: Point, ts: int)
    requires ts >= 1
    ensures {TopRight(o, ts), BottomLeft(o, ts)} != {TopLeft(o, ts), BottomRight(o, ts)}
  {
    assert TopRight(o, ts) !in {TopLeft(o, ts), BottomRight(o, ts)};
  }

  lemma AntiDiagonalSides(o: Point, ts: int)
    requires ts >= 1
    ensures BorderedSides([TopLeft(o, ts), TopRight(o, ts), BottomLeft(o, ts)], o, ts) == {Top, Left}
    ensures BorderedSides([TopRight(o, ts), BottomLeft(o, ts), BottomRight(o, ts)], o, ts) == {Bottom, Right}
  {
    PointsOfTriangle(TopLeft(o, ts), TopRight(o, ts), BottomLeft(o, ts));
    PointsOfTriangle(TopRight(o, ts), BottomLeft(o, ts), BottomRight(o, ts));
  }

  lemma MainDiagonalSides(o: Point, ts: int)
    requires ts >= 1
    ensures BorderedSides([TopLeft(o, ts), TopRight(o, ts), BottomRight(o, ts)], o, ts) == {Top, Right}
    ensures BorderedSides([TopLeft(o, ts), BottomLeft(o, ts), BottomRight(o, ts)], o, ts) == {Left, Bottom}
  {
    PointsOfTriangle(TopLeft(o, ts), TopRight(o, ts), BottomRight(o, ts));
    PointsOfTriangle(TopLeft(o, ts), BottomLeft(o, ts), BottomRight(o, ts));
  }

  /** Each triangle has exactly two sides of the tile as edges, and is filled
      with the blend of the two quadrant colours on those sides. */
  lemma SplitColours(q: Quad, o: Point, ts: int, chroma: Pixel -> Degrees, k: nat)
    requires ts >= 1 && k < 2
    ensures var cmd := SplitCommands(q, o, ts, chroma)[k];
      |BorderedSides(cmd.path, o, ts)| == 2 &&
      forall s, s' :: s in BorderedSides(cmd.path, o, ts) && s' in BorderedSides(cmd.path, o, ts) && s != s' ==>
        cmd.fill == Blend(q.Colour(s), q.Colour(s'))
  {
    AverageOfPair(q.top, q.left);
    AverageOfPair(q.bottom, q.right);
    AverageOfPair(q.top, q.right);
    AverageOfPair(q.bottom, q.left);
    if AntiDiagonalSplit(q, chroma) {
      AntiDiagonalSides(o, ts);
    } else {
      MainDiagonalSides(o, ts);
    }
  }

  /** A tile whose pixels all have one colour is drawn as two triangles of
      that colour (made opaque), split along the main diagonal because the
      two hue distances tie at zero. */
  lemma SolidTile(img: Image, ts: int, chroma: Pixel -> Degrees, o: Point, c: Pixel)
    requires ts >= 2
    requires forall p :: TileRect(o, ts).Contains(p) ==> img.pixel(p.x, p.y) == c
    ensures var tl, tr, bl, br := TopLeft(o, ts), TopRight(o, ts), BottomLeft(o, ts), BottomRight(o, ts);
      TileCommands(img, ts, chroma, o) ==
        Ok([Polygon([tl, tr, br], Opaque(c), Opaque(c)), Polygon([tl, bl, br], Opaque(c), Opaque(c))])
  {
    QuadMeansOk(img, ts, o);
    forall side ensures QuadMeans(img, ts, o).value.Colour(side) == Opaque(c) {
      var r := QuadRect(o, ts, side);
      var ps := QuadPixels(img, ts, o, side);
      forall i | 0 <= i < |ps| ensures ps[i] == c {
        RectCoordsMembers(r, RectCoords(r)[i]);
        QuadRectWithinTile(o, ts, side);
      }
      AverageOfCopies(ps, c);
    }
    var q := QuadMeans(img, ts, o).value;
    assert q == Quad(Opaque(c), Opaque(c), Opaque(c), Opaque(c)) by {
      assert q.top == q.Colour(Top) && q.left == q.Colour(Left);
      assert q.bottom == q.Colour(Bottom) && q.right == q.Colour(Right);
    }
    DistanceZero(q.top, q.left, chroma);
    DistanceZero(q.top, q.right, chroma);
    AverageOfCopies([Opaque(c), Opaque(c)], Opaque(c));
  }

  lemma AntiDiagonalCommands(q: Quad, o: Point, ts: int, chroma: Pixel -> Degrees,
    tl: Point, tr: Point, bl: Point, br: Point, c1: Pixel, c2: Pixel)
    requires AntiDiagonalSplit(q, chroma)
    requires tl == TopLeft(o, ts) && tr == TopRight(o, ts) && bl == BottomLeft(o, ts) && br == BottomRight(o, ts)
    requires c1 == Blend(q.top, q.left) && c2 == Blend(q.bottom, q.right)
    ensures SplitCommands(q, o, ts, chroma) == [Polygon([tl, tr, bl], c1, c1), Polygon([tr, bl, br], c2, c2)]
  {
  }

  lemma MainDiagonalCommands(q: Quad, o: Point, ts: int, chroma: Pixel -> Degrees,
    tl: Point, tr: Point, bl: Point, br: Point, c1: Pixel, c2: Pixel)
    requires !AntiDiagonalSplit(q, chroma)
    requires tl == TopLeft(o, ts) && tr == TopRight(o, ts) && bl == BottomLeft(o, ts) && br == BottomRight(o, ts)
    requires c1 == Blend(q.top, q.right) && c2 == Blend(q.bottom, q.left)
    ensures SplitCommands(q, o, ts, chroma) == [Polygon([tl, tr, br], c1, c1), Polygon([tl, bl, br], c2, c2)]
  {
  }

  lemma AppendPair(s: seq<DrawCommand>, a: DrawCommand, b: DrawCommand)
    ensures s + [a] + [b] == s + [a, b]
  {
  }

  /** `process_tile(new_image, x, y)`: sample the quadrants, compare the two
      hue distances, blend, and draw two polygons. */
  method ProcessTile(canvas: Canvas, img: Image, ts: int, chroma: Pixel -> Degrees, x: int, y: int)
    returns (r: Result<()>)
    requires ts >= 0 && TileInImage(img, ts, Point(x, y))
    modifies canvas
    ensures r.Ok? <==> TileCommands(img, ts, chroma, Point(x, y)).Ok?
    ensures r.Ok? ==> canvas.commands == old(canvas.commands) + TileCommands(img, ts, chroma, Point(x, y)).value
    ensures r.Err? ==> canvas.commands == old(canvas.commands) && r.error == TileCommands(img, ts, chroma, Point(x, y)).error
  {
    var quad := QuadColours(img, ts, x, y);
    if quad.Err? {
      return Err(quad.error);
    }
    var q := quad.value;
    ghost var o := Point(x, y);
    assert TileCommands(img, ts, chroma, o) == Ok(SplitCommands(q, o, ts, chroma));
    var pTopLeft := Point(x, y);
    var pTopRight := Point(x + ts, y);
    var pBottomLeft := Point(x, y + ts);
    var pBottomRight := Point(x + ts, y + ts);
    if Distance(q.top, q.left, chroma) > Distance(q.top, q.right, chroma) {
      var c1 := AverageColor([q.top, q.left]);
      var c2 := AverageColor([q.bottom, q.right]);
      AntiDiagonalCommands(q, o, ts, chroma, pTopLeft, pTopRight, pBottomLeft, pBottomRight, c1.value, c2.value);
      canvas.DrawPolygon([pTopLeft, pTopRight, pBottomLeft], c1.value, c1.value);
      canvas.DrawPolygon([pTopRight, pBottomLeft, pBottomRight], c2.value, c2.value);
      AppendPair(old(canvas.commands), Polygon([pTopLeft, pTopRight, pBottomLeft], c1.value, c1.value),
        Polygon([pTopRight, pBottomLeft, pBottomRight], c2.value, c2.value));
    } else {
      var c1 := AverageColor([q.top, q.right]);
      var c2 := AverageColor([q.bottom, q.left]);
      MainDiagonalCommands(q, o, ts, chroma, pTopLeft, pTopRight, pBottomLeft, pBottomRight, c1.value, c2.value);
      canvas.DrawPolygon([pTopLeft, pTopRight, pBottomRight], c1.value, c1.value);
      canvas.DrawPolygon([pTopLeft, pBottomLeft, pBottomRight], c2.value, c2.value);
      AppendPair(old(canvas.commands), Polygon([pTopLeft, pTopRight, pBottomRight], c1.value, c1.value),
        Polygon([pTopLeft, pBottomLeft, pBottomRight], c2.value, c2.value));
    }
    r := Ok(());
  }

  /** A tile's drawing depends only on the source pixels inside the tile. */
  lemma TileCommandsLocal(img: Image, img': Image, ts: int, chroma: Pixel -> Degrees, o: Point)
    requires ts >= 0
    requires forall p :: TileRect(o, ts).Contains(p) ==> img.pixel(p.x, p.y) == img'.pixel(p.x, p.y)
    ensures TileCommands(img, ts, chroma, o) == TileCommands(img', ts, chroma, o)
  {
    QuadPixelsLocal(img, img', ts, o, Top);
    QuadPixelsLocal(img, img', ts, o, Left);
    QuadPixelsLocal(img, img', ts, o, Bottom);
    QuadPixelsLocal(img, img', ts, o, Right);
  }
}
