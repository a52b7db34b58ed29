/** `process`: crop the output to whole tiles, walk the tile grid and render
    every tile onto a fresh canvas. */
module TileGrid {
  import opened Arith
  import opened Pixels
  import opened Geometry
  import opened Bitmap
  import opened HueMath
  import opened QuadrantSampler
  import opened TileRenderer

  /** The source dimension rounded down to a whole number of tiles. */
  function OutputSize(dim: nat, ts: int): nat
    requires ts >= 1
  {
    MulMono(0, dim / ts, ts);
    (dim / ts) * ts
  }

  /** The cropped dimension is a multiple of the tile size, at most the
      source dimension, and less than one tile short of it. */
  lemma OutputSizeCrop(dim: nat, ts: int)
    requires ts >= 1
    ensures OutputSize(dim, ts) % ts == 0 && OutputSize(dim, ts) <= dim < OutputSize(dim, ts) + ts
  {
    var q := dim / ts;
    FloorDiv(dim, ts);
    MultipleMod(q, ts);
    assert (q + 1) * ts == q * ts + ts;
  }

  /** No larger multiple of the tile size fits: the crop keeps as many whole
      tiles as the source holds. */
  lemma OutputSizeLargest(dim: nat, ts: int, k: nat)
    requires ts >= 1 && k * ts <= dim
    ensures k * ts <= OutputSize(dim, ts)
  {
    var q := dim / ts;
    FloorDiv(dim, ts);
    if k > q {
      MulMono(q + 1, k, ts);
    }
    MulMono(k, q, ts);
  }

  /** The tile origins in the order the two `step` loops visit them: columns
      left to right, each column top to bottom. */
  function TileOrigins(cols: nat, rows: nat, ts: int): seq<Point>
  {
    Scaled(RectCoords(Rect(0, 0, cols, rows)), ts)
  }

  /** The renderer of one tile, as a function of its origin. */
  function TileFn(img: Image, ts: int, chroma: Pixel -> Degrees): Point -> Result<seq<DrawCommand>>
  {
    o => TileCommands(img, ts, chroma, o)
  }

  /** The draw commands of a list of tiles in order, or the first error a
      tile raises. */
  function GridCommands(tile: Point -> Result<seq<DrawCommand>>, origins: seq<Point>): Result<seq<DrawCommand>>
  {
    if origins == [] then Ok([])
    else
      match GridCommands(tile, origins[..|origins| - 1])
      case Err(e) => Err(e)
      case Ok(done) =>
        match tile(origins[|origins| - 1])
        case Err(e) => Err(e)
        case Ok(cmds) => Ok(done + cmds)
  }

  /** What `process` draws for an image, or the error it raises. */
  function Render(img: Image, ts: int, chroma: Pixel -> Degrees): Result<seq<DrawCommand>>
    requires ts >= 1
  {
    GridCommands(TileFn(img, ts, chroma), TileOrigins(img.width / ts, img.height / ts, ts))
  }

  /** The grid has one origin per tile, with `cols * rows` tiles. */
  lemma TileOriginsCount(cols: nat, rows: nat, ts: int)
    ensures |TileOrigins(cols, rows, ts)| == cols * rows
  {
    RectCoordsLength(Rect(0, 0, cols, rows));
  }

  /** Every origin has coordinates that are multiples of `ts` inside the crop. */
  lemma TileOriginsSound(cols: nat, rows: nat, ts: int, k: nat)
    requires ts >= 1 && k < |TileOrigins(cols, rows, ts)|
    ensures var p := TileOrigins(cols, rows, ts)[k];
      0 <= p.x < cols * ts && p.x % ts == 0 && 0 <= p.y < rows * ts && p.y % ts == 0
  {
    var c := RectCoords(Rect(0, 0, cols, rows))[k];
    RectCoordsMembers(Rect(0, 0, cols, rows), c);
    ScaleLess(c.x, cols, ts);
    ScaleLess(c.y, rows, ts);
    ScaleLess(-1, c.x, ts);
    ScaleLess(-1, c.y, ts);
    MultipleMod(c.x, ts);
    MultipleMod(c.y, ts);
  }

  /** Every multiple of `ts` inside the crop is an origin. */
  lemma TileOriginsComplete(cols: nat, rows: nat, ts: int, p: Point)
    requires ts >= 1
    requires 0 <= p.x < cols * ts && p.x % ts == 0 && 0 <= p.y < rows * ts && p.y % ts == 0
    ensures p in TileOrigins(cols, rows, ts)
  {
    var r := Rect(0, 0, cols, rows);
    var cs := RectCoords(r);
    var c := Point(p.x / ts, p.y / ts);
    ModZero(p.x, ts);
    ModZero(p.y, ts);
    ScaleLess(c.x, cols, ts);
    ScaleLess(c.y, rows, ts);
    ScaleLess(c.x, 0, ts);
    ScaleLess(c.y, 0, ts);
    RectCoordsMembers(r, c);
    var k :| 0 <= k < |cs| && cs[k] == c;
    assert TileOrigins(cols, rows, ts)[k] == p;
  }

  /** The origins are exactly the points whose coordinates are multiples of
      `ts` below `cols * ts` and `rows * ts`. */
  lemma TileOriginsExact(cols: nat, rows: nat, ts: int, p: Point)
    requires ts >= 1
    ensures p in TileOrigins(cols, rows, ts) <==>
      (0 <= p.x < cols * ts && p.x % ts == 0 && 0 <= p.y < rows * ts && p.y % ts == 0)
  {
    if p in TileOrigins(cols, rows, ts) {
      var k :| 0 <= k < |TileOrigins(cols, rows, ts)| && TileOrigins(cols, rows, ts)[k] == p;
      TileOriginsSound(cols, rows, ts, k);
    }
    if 0 <= p.x < cols * ts && p.x % ts == 0 && 0 <= p.y < rows * ts && p.y % ts == 0 {
      TileOriginsComplete(cols, rows, ts, p);
    }
  }

  /** No tile is visited twice. */
  lemma TileOriginsDistinct(cols: nat, rows: nat, ts: int)
    requires ts >= 1
    ensures Distinct(TileOrigins(cols, rows, ts))
  {
    var cs := RectCoords(Rect(0, 0, cols, rows));
    RectCoordsDistinct(Rect(0, 0, cols, rows));
    forall i, j | 0 <= i < j < |cs| ensures TileOrigins(cols, rows, ts)[i] != TileOrigins(cols, rows, ts)[j] {
      ScaleLess(cs[i].x, cs[j].x, ts);
      ScaleLess(cs[j].x, cs[i].x, ts);
      ScaleLess(cs[i].y, cs[j].y, ts);
      ScaleLess(cs[j].y, cs[i].y, ts);
    }
  }

  /** Every tile square lies within the cropped area. */
  lemma TileWithinCrop(cols: nat, rows: nat, ts: int, k: nat)
    requires ts >= 1 && k < |TileOrigins(cols, rows, ts)|
    ensures TileRect(TileOrigins(cols, rows, ts)[k], ts).Within(Rect(0, 0, cols * ts, rows * ts))
  {
    var c := RectCoords(Rect(0, 0, cols, rows))[k];
    RectCoordsMembers(Rect(0, 0, cols, rows), c);
    MulMono(c.x + 1, cols, ts);
    MulMono(c.y + 1, rows, ts);
    MulMono(0, c.x, ts);
    MulMono(0, c.y, ts);
    NextMultiple(c.x, ts);
    NextMultiple(c.y, ts);
  }

  /** Rendering fails exactly when a tile of size 1 has to be drawn: its Top
      region is empty. Otherwise every tile contributes its two polygons. */
  lemma {:induction false} GridCommandsResult(img: Image, ts: int, chroma: Pixel -> Degrees, origins: seq<Point>)
    requires ts >= 1
    ensures GridCommands(TileFn(img, ts, chroma), origins).Err? <==> ts == 1 && origins != []
    ensures GridCommands(TileFn(img, ts, chroma), origins).Err? ==> GridCommands(TileFn(img, ts, chroma), origins).error == DivideByZero
    ensures GridCommands(TileFn(img, ts, chroma), origins).Ok? ==> |GridCommands(TileFn(img, ts, chroma), origins).value| == 2 * |origins|
  {
    if origins != [] {
      GridCommandsResult(img, ts, chroma, origins[..|origins| - 1]);
      QuadMeansOk(img, ts, origins[|origins| - 1]);
    }
  }

  /** With tile size 1 any non-empty image fails; otherwise rendering succeeds. */
  lemma RenderResult(img: Image, ts: int, chroma: Pixel -> Degrees)
    requires ts >= 1
    ensures Render(img, ts, chroma).Err? <==> ts == 1 && img.width > 0 && img.height > 0
    ensures Render(img, ts, chroma).Ok? ==>
      |Render(img, ts, chroma).value| == 2 * ((img.width / ts) * (img.height / ts))
  {
    var origins := TileOrigins(img.width / ts, img.height / ts, ts);
    GridCommandsResult(img, ts, chroma, origins);
    TileOriginsCount(img.width / ts, img.height / ts, ts);
    if img.width / ts > 0 && img.height / ts > 0 {
      PositiveProduct(img.width / ts, img.height / ts);
    }
  }

  lemma {:induction false} GridCommandsLocal(img: Image, img': Image, ts: int, chroma: Pixel -> Degrees, origins: seq<Point>, crop: Rect)
    requires ts >= 0
    requires forall k :: 0 <= k < |origins| ==> TileRect(origins[k], ts).Within(crop)
    requires forall p :: crop.Contains(p) ==> img.pixel(p.x, p.y) == img'.pixel(p.x, p.y)
    ensures GridCommands(TileFn(img, ts, chroma), origins) == GridCommands(TileFn(img', ts, chroma), origins)
  {
    if origins != [] {
      var o := origins[|origins| - 1];
      GridCommandsLocal(img, img', ts, chroma, origins[..|origins| - 1], crop);
      assert TileRect(o, ts).Within(crop);
      TileCommandsLocal(img, img', ts, chroma, o);
    }
  }

  /** The rows and columns cut off by the crop are never sampled: two images
      with the same cropped size that agree inside the crop render the same. */
  lemma RenderIgnoresRemainder(img: Image, img': Image, ts: int, chroma: Pixel -> Degrees)
    requires ts >= 1
    requires OutputSize(img.width, ts) == OutputSize(img'.width, ts)
    requires OutputSize(img.height, ts) == OutputSize(img'.height, ts)
    requires forall p :: Rect(0, 0, OutputSize(img.width, ts), OutputSize(img.height, ts)).Contains(p) ==>
      img.pixel(p.x, p.y) == img'.pixel(p.x, p.y)
    ensures Render(img, ts, chroma) == Render(img', ts, chroma)
  {
    var cols, rows := img.width / ts, img.height / ts;
    MultipleMod(cols, ts);
    MultipleMod(img'.width / ts, ts);
    MultipleMod(rows, ts);
    MultipleMod(img'.height / ts, ts);
    var origins := TileOrigins(cols, rows, ts);
    forall k | 0 <= k < |origins| ensures TileRect(origins[k], ts).Within(Rect(0, 0, cols * ts, rows * ts)) {
      TileWithinCrop(cols, rows, ts, k);
    }
    GridCommandsLocal(img, img', ts, chroma, origins, Rect(0, 0, cols * ts, rows * ts));
  }

  lemma GridCommandsStep(tile: Point -> Result<seq<DrawCommand>>, origins: seq<Point>, o: Point, done: seq<DrawCommand>)
    requires GridCommands(tile, origins) == Ok(done)
    requires tile(o).Ok?
    ensures GridCommands(tile, origins + [o]) == Ok(done + tile(o).value)
  {
    assert (origins + [o])[..|origins|] == origins;
  }

  /** The commands drawn once columns `0..i-1` and the first `j` tiles of
      column `i` have been rendered, in a grid of `rows` rows. */
  ghost predicate Drawn(tile: Point -> Result<seq<DrawCommand>>, ts: int, rows: nat, i: nat, j: nat, done: seq<DrawCommand>)
  {
    GridCommands(tile, TileOrigins(i, rows, ts) + Scaled(ColumnCoords(i, 0, j), ts)) == Ok(done)
  }

  /** Rendering the next tile of column `i` extends the drawn commands by that tile's. */
  lemma DrawnStep(tile: Point -> Result<seq<DrawCommand>>, ts: int, rows: nat, i: nat, j: nat, done: seq<DrawCommand>)
    requires Drawn(tile, ts, rows, i, j, done)
    requires tile(Point(i * ts, j * ts)).Ok?
    ensures Drawn(tile, ts, rows, i, j + 1, done + tile(Point(i * ts, j * ts)).value)
  {
    var visited := TileOrigins(i, rows, ts) + Scaled(ColumnCoords(i, 0, j), ts);
    GridCommandsStep(tile, visited, Point(i * ts, j * ts), done);
    ColumnStep(i, 0, j);
    ScaledAppend(ColumnCoords(i, 0, j), [Point(i, j)], ts);
    assert Scaled([Point(i, j)], ts) == [Point(i * ts, j * ts)];
    assert TileOrigins(i, rows, ts) + Scaled(ColumnCoords(i, 0, j + 1), ts) == visited + [Point(i * ts, j * ts)];
  }

  /** Nothing is drawn before the first column. */
  lemma DrawnStart(tile: Point -> Result<seq<DrawCommand>>, ts: int, rows: nat)
    ensures Drawn(tile, ts, rows, 0, 0, [])
  {
    assert TileOrigins(0, rows, ts) + Scaled(ColumnCoords(0, 0, 0), ts) == [];
  }

  /** A finished column is the start of the next one. */
  lemma DrawnColumn(tile: Point -> Result<seq<DrawCommand>>, ts: int, rows: nat, i: nat, done: seq<DrawCommand>)
    requires Drawn(tile, ts, rows, i, rows, done)
    ensures Drawn(tile, ts, rows, i + 1, 0, done)
  {
    assert Rect(0, 0, i + 1, rows).(x1 := i) == Rect(0, 0, i, rows);
    ScaledAppend(RectCoords(Rect(0, 0, i, rows)), ColumnCoords(i, 0, rows), ts);
    assert TileOrigins(i + 1, rows, ts) + Scaled(ColumnCoords(i + 1, 0, 0), ts) == TileOrigins(i + 1, rows, ts);
  }

  /** Once every column is drawn, the commands are the whole rendering. */
  lemma DrawnAll(img: Image, ts: int, chroma: Pixel -> Degrees, cols: nat, rows: nat, done: seq<DrawCommand>)
    requires ts >= 1 && cols == img.width / ts && rows == img.height / ts
    requires Drawn(TileFn(img, ts, chroma), ts, rows, cols, 0, done)
    ensures Render(img, ts, chroma) == Ok(done)
  {
    assert TileOrigins(cols, rows, ts) + Scaled(ColumnCoords(cols, 0, 0), ts) == TileOrigins(cols, rows, ts);
  }

  /** The tile at column `i`, row `j` of the grid lies inside the image. */
  lemma GridTileInImage(img: Image, ts: int, i: nat, j: nat)
    requires ts >= 1 && i < img.width / ts && j < img.height / ts
    ensures TileInImage(img, ts, Point(i * ts, j * ts))
  {
    FloorDiv(img.width, ts);
    FloorDiv(img.height, ts);
    MulMono(i + 1, img.width / ts, ts);
    MulMono(j + 1, img.height / ts, ts);
    MulMono(0, i, ts);
    MulMono(0, j, ts);
    NextMultiple(i, ts);
    NextMultiple(j, ts);
  }

  /** A tile fails exactly when its size is 1, and then by a division by zero. */
  lemma TileFailure(img: Image, ts: int, chroma: Pixel -> Degrees, o: Point)
    requires ts >= 1
    ensures TileCommands(img, ts, chroma, o).Err? <==> ts == 1
    ensures TileCommands(img, ts, chroma, o).Err? ==> TileCommands(img, ts, chroma, o).error == DivideByZero
  {
    QuadMeansOk(img, ts, o);
  }

  /** With tile size 1 a non-empty image fails with a division by zero. */
  lemma RenderFails(img: Image, chroma: Pixel -> Degrees)
    requires img.width > 0 && img.height > 0
    ensures Render(img, 1, chroma) == Err(DivideByZero)
  {
    RenderResult(img, 1, chroma);
    GridCommandsResult(img, 1, chroma, TileOrigins(img.width / 1, img.height / 1, 1));
  }

  /** The inner `step` loop of `process`: render the tiles of column `i`
      (left edge `x`) top to bottom. */
  method ProcessColumn(canvas: Canvas, img: Image, ts: int, chroma: Pixel -> Degrees, x: int, height: int, ghost i: nat)
      returns (r: Result<()>)
    requires ts >= 1 && i < img.width / ts && x == i * ts && height == (img.height / ts) * ts
    requires Drawn(TileFn(img, ts, chroma), ts, img.height / ts, i, 0, canvas.commands)
    modifies canvas
    ensures r.Ok? ==> Drawn(TileFn(img, ts, chroma), ts, img.height / ts, i + 1, 0, canvas.commands)
    ensures r.Err? ==> ts == 1 && img.height > 0 && r.error == DivideByZero
  {
    ghost var rows: nat := img.height / ts;
    var y := 0;
    ghost var j := 0;
    while y < height
      invariant 0 <= j <= rows && y == j * ts
      invariant Drawn(TileFn(img, ts, chroma), ts, rows, i, j, canvas.commands)
    {
      ScaleLess(j, rows, ts);
      NextMultiple(j, ts);
      GridTileInImage(img, ts, i, j);
      TileFailure(img, ts, chroma, Point(x, y));
      ghost var before := canvas.commands;
      var tile := ProcessTile(canvas, img, ts, chroma, x, y);
      if tile.Err? {
        return Err(tile.error);
      }
      DrawnStep(TileFn(img, ts, chroma), ts, rows, i, j, before);
      y := y + ts;
      j := j + 1;
    }
    ScaleLess(j, rows, ts);
    DrawnColumn(TileFn(img, ts, chroma), ts, rows, i, canvas.commands);
    r := Ok(());
  }

  /** `process`: allocate the cropped, transparent canvas, then render the
      tiles column by column. */
  method Process(img: Image, ts: int, chroma: Pixel -> Degrees) returns (r: Result<Canvas>)
    requires ts >= 1
    ensures r.Ok? <==> Render(img, ts, chroma).Ok?
    ensures r.Err? ==> r.error == Render(img, ts, chroma).error
    ensures r.Ok? ==> fresh(r.value) && r.value.commands == Render(img, ts, chroma).value
    ensures r.Ok? ==> r.value.width == OutputSize(img.width, ts) && r.value.height == OutputSize(img.height, ts)
    ensures r.Ok? ==> r.value.background == Transparent
  {
    var width := (img.width / ts) * ts;
    var height := (img.height / ts) * ts;
    var canvas := new Canvas(width, height, Transparent);
    ghost var cols: nat, rows: nat := img.width / ts, img.height / ts;
    DrawnStart(TileFn(img, ts, chroma), ts, rows);
    var x := 0;
    ghost var i := 0;
    while x < width
      invariant 0 <= i <= cols && x == i * ts
      invariant Drawn(TileFn(img, ts, chroma), ts, rows, i, 0, canvas.commands)
    {
      ScaleLess(i, cols, ts);
      NextMultiple(i, ts);
      var column := ProcessColumn(canvas, img, ts, chroma, x, height, i);
      if column.Err? {
        assert img.width > 0;
        RenderFails(img, chroma);
        return Err(column.error);
      }
      x := x + ts;
      i := i + 1;
    }
    ScaleLess(i, cols, ts);
    DrawnAll(img, ts, chroma, cols, rows, canvas.commands);
    r := Ok(canvas);
  }
}
