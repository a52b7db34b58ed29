# Flambient tile mosaic, modelled in Dafny

Flambient's `Processor` turns a picture into a mosaic of triangles. First it
crops the output to a whole number of tiles, `(dim / tile_size) * tile_size`
in each direction. Then it walks the tiles column by column, top to bottom
within each column. For each tile it does four things:

- It samples four rectangular regions: Top, Left, Bottom and Right. Their split
  point is `tile_size / 2`.
- It averages each region to one colour, taking the integer floor of each
  channel's mean.
- It compares hue distances. When top is strictly farther in hue from left than
  from right, it splits the tile along the anti-diagonal; otherwise along the
  main diagonal.
- It draws two triangles. Each is filled, and stroked, with the blend of the two
  quadrant colours on its sides.

The model has one module per concern:

- `Pixels`: RGBA pixels over bytes, and the `Result` type.
- `Geometry`: points, rectangles, and the order in which the nested loops visit
  points.
- `Bitmap`: the source image as a value. The output canvas is a class whose
  `polygon` calls append to a recorded list of draw commands.
- `Averaging`: `average_color`.
- `HueMath`: `color_hue` and `color_distance`.
- `QuadrantSampler`: `triangle_pixels` and `quad_colours`.
- `TileRenderer`: `process_tile`.
- `TileGrid`: `process`.

Every method with a loop is proved equal to a specification function of its
inputs: `AverageColor` to `Average`, `TrianglePixels` to `QuadPixels`,
`QuadColours` to `QuadMeans`, `ProcessTile` to `TileCommands`, and `Process`
to `Render`. The lemmas state what those functions promise.

Ruby raises `ZeroDivisionError` in `average_color` when a region is empty.
This is an explicit error result here. It happens exactly when the tile size
is 1, because the Top region then has height `1 / 2 = 0`. Every image with at
least one tile then fails. An image narrower or shorter than one tile yields
an empty canvas with no error.

## Model

| member | source | states |
|---|---|---|
| TileGrid.Process | lib/flambient/processor.rb:14-27 | Succeeds exactly when the rendering does, and returns a fresh canvas. Its size is the cropped size, its background is transparent, and its commands are every tile's two polygons in loop order. On failure it returns the error of the rendering. |
| TileGrid.ProcessColumn | lib/flambient/processor.rb:21-23 | The inner loop draws the tiles of one column top to bottom, and the drawn commands become those of one more whole column. It stops at the first tile that fails, which happens only with tile size 1, by division by zero. |
| TileGrid.OutputSize | lib/flambient/processor.rb:16-17 | Definition: a dimension rounded down to a whole number of tiles, `(dim / ts) * ts`. What it promises is stated by OutputSizeCrop and OutputSizeLargest. |
| TileGrid.TileOrigins | lib/flambient/processor.rb:20-21 | Definition: the tile origins in the order the two `step` loops visit them: columns `0, ts, 2 ts, ...` outermost, and within a column the rows top to bottom. What it promises is stated by the TileOrigins lemmas. |
| TileGrid.GridCommands | lib/flambient/processor.rb:20-24 | Definition: the commands of a list of tiles, each tile's commands after those of the tiles before it, stopping at the first tile that fails. |
| TileGrid.Render | lib/flambient/processor.rb:14-27 | Definition: the commands `process` draws, the grid commands of every tile of the crop. What it promises is stated by RenderResult and RenderIgnoresRemainder. |
| TileGrid.OutputSizeCrop | lib/flambient/processor.rb:16-17 | The cropped dimension is a multiple of the tile size. It is at most the source dimension and more than the source dimension minus one tile. |
| TileGrid.OutputSizeLargest | lib/flambient/processor.rb:16-17 | Every multiple of the tile size that fits in the source dimension fits in the cropped one: the crop keeps every whole tile. |
| TileGrid.TileOriginsExact | lib/flambient/processor.rb:20-21 | The visited tile origins are exactly the points whose coordinates are multiples of the tile size inside the cropped area. |
| TileGrid.TileOriginsSound | lib/flambient/processor.rb:20-21 | Every visited origin is a multiple of the tile size inside the cropped area. |
| TileGrid.TileOriginsComplete | lib/flambient/processor.rb:20-21 | Every multiple of the tile size inside the cropped area is visited. |
| TileGrid.TileOriginsCount | lib/flambient/processor.rb:20-24 | The two step loops visit `cols * rows` tiles. |
| TileGrid.TileOriginsDistinct | lib/flambient/processor.rb:20-24 | No tile is visited twice. |
| TileGrid.TileWithinCrop | lib/flambient/processor.rb:16-24 | Every visited tile square lies inside the cropped canvas. |
| TileGrid.GridTileInImage | lib/flambient/processor.rb:16-24 | The tile at any column and row of the crop lies inside the source image, so every `get_pixel` it makes is in bounds. |
| TileGrid.GridCommandsResult | lib/flambient/processor.rb:20-24 | Rendering a list of tiles fails exactly when the tile size is 1 and the list is non-empty, and then by division by zero. Otherwise it yields two commands per tile. |
| TileGrid.RenderResult | lib/flambient/processor.rb:14-27 | `process` fails exactly when the tile size is 1 and the image is non-empty. Otherwise it draws `2 * (width / ts) * (height / ts)` polygons. |
| TileGrid.RenderFails | lib/flambient/processor.rb:20-24 | With tile size 1, a non-empty image fails with a division by zero. |
| TileGrid.TileFailure | lib/flambient/processor.rb:31-32 | A single tile fails exactly when the tile size is 1, by division by zero. |
| TileGrid.GridCommandsLocal | lib/flambient/processor.rb:20-24 | Pixels outside every visited tile do not affect the drawing. |
| TileGrid.RenderIgnoresRemainder | lib/flambient/processor.rb:16-24 | The rows and columns cut off by the crop are never sampled. Two images with the same cropped size that agree inside the crop render identically. |
| TileGrid.GridCommandsStep | lib/flambient/processor.rb:22 | Processing one more tile appends that tile's commands to those drawn so far. |
| TileGrid.DrawnStep | lib/flambient/processor.rb:21-23 | One inner-loop step extends the drawn commands by the commands of the tile at the next row. |
| TileGrid.DrawnColumn | lib/flambient/processor.rb:20-24 | A finished column leaves exactly the drawing of all columns so far. |
| TileGrid.DrawnAll | lib/flambient/processor.rb:20-26 | After the last column, the drawn commands are the whole rendering. |
| TileRenderer.ProcessTile | lib/flambient/processor.rb:31-54 | Draws exactly the tile's two specified polygons onto the canvas, appended after the earlier ones. On a division by zero in sampling, it draws nothing and returns that error. |
| TileRenderer.SplitCommands | lib/flambient/processor.rb:34-53 | Definition: the two polygons of a tile from its four quadrant colours. The anti-diagonal split is used when `color_distance(top, left) > color_distance(top, right)`, and the main-diagonal split otherwise. What it promises is stated by SplitGeometry and SplitColours. |
| TileRenderer.SplitGeometry | lib/flambient/processor.rb:34-52 | A tile becomes two triangles of tile corners, each with stroke equal to fill. Together they use all four corners, and they share exactly one diagonal. The diagonal is the anti-diagonal exactly when the strict hue comparison holds. |
| TileRenderer.DiagonalsDiffer | lib/flambient/processor.rb:41-52 | The two candidate diagonals are different point sets, so the comparison alone decides which one is drawn. |
| TileRenderer.AntiDiagonalSides | lib/flambient/processor.rb:45-46 | The anti-diagonal triangles border Top and Left, and Bottom and Right. |
| TileRenderer.MainDiagonalSides | lib/flambient/processor.rb:51-52 | The main-diagonal triangles border Top and Right, and Left and Bottom. |
| TileRenderer.SplitColours | lib/flambient/processor.rb:41-52 | Each triangle borders exactly two tile sides, and its fill is the blend of the two quadrant colours on those sides. |
| TileRenderer.SolidTile | lib/flambient/processor.rb:31-54 | A one-colour tile of size at least 2 becomes two main-diagonal triangles of that colour, made opaque, because the two hue distances tie at zero. |
| TileRenderer.TileCommandsLocal | lib/flambient/processor.rb:31-61 | A tile's drawing depends only on the source pixels inside the tile. |
| QuadrantSampler.QuadColours | lib/flambient/processor.rb:57-61 | Returns the four region means in order Top, Left, Bottom, Right, or the error of the first region that is empty. |
| QuadrantSampler.QuadMeansOk | lib/flambient/processor.rb:57-61 | For tile size at least 1, the four means exist exactly when the tile size is at least 2. With size 1 the Top region is empty and sampling divides by zero. Each mean is the average of its region. |
| QuadrantSampler.TrianglePixels | lib/flambient/processor.rb:66-94 | The nested loops collect exactly the pixels of the side's rectangle, column by column, every read in bounds. |
| QuadrantSampler.QuadRect | lib/flambient/processor.rb:67-82 | Definition: the rectangle from `p1` to `p2` that the `case` on the side builds, with `quad_size = ts / 2`. What it promises is stated by QuadRectWithinTile, QuadSizes and the two partition lemmas. |
| QuadrantSampler.QuadRectWithinTile | lib/flambient/processor.rb:69-82 | Each of the four rectangles lies inside its tile. |
| QuadrantSampler.QuadSizes | lib/flambient/processor.rb:67-82 | Top and Left are bands of `ts / 2`. Bottom and Right are bands of `ts - ts / 2`, one wider when the tile size is odd. |
| QuadrantSampler.TopBottomPartition | lib/flambient/processor.rb:69-82 | Top and Bottom are disjoint and together cover exactly the tile. |
| QuadrantSampler.LeftRightPartition | lib/flambient/processor.rb:69-82 | Left and Right are disjoint and together cover exactly the tile. |
| QuadrantSampler.QuadPixelsAreRegion | lib/flambient/processor.rb:87-93 | A region yields width times height pixels: each point of the rectangle once, and no point outside it. |
| QuadrantSampler.QuadPixelsLocal | lib/flambient/processor.rb:66-94 | A region's pixels depend only on the image inside the tile. |
| QuadrantSampler.ColumnStep | lib/flambient/processor.rb:89-90 | One more inner-loop step visits the next point of the column. |
| Averaging.AverageColor | lib/flambient/processor.rb:97-113 | The accumulating loop computes the specified average, including the division-by-zero error on an empty list. |
| Averaging.Average | lib/flambient/processor.rb:97-113 | Fails exactly on the empty list, by division by zero. Otherwise the result is opaque. |
| Averaging.AverageIsFloorMean | lib/flambient/processor.rb:108-110 | Each channel of the average is the floor of the channel's mean: times the count it is at most the sum, and one more times the count exceeds it. |
| Averaging.AverageOfCopies | lib/flambient/processor.rb:97-113 | Averaging copies of one colour gives that colour back, made opaque. |
| Averaging.AverageOfOne | lib/flambient/processor.rb:97-113 | The average of one pixel is that pixel, made opaque. |
| Averaging.AverageOfPair | lib/flambient/processor.rb:97-113 | The blend of two colours floors each channel's mean and does not depend on their order. |
| Averaging.SumStep | lib/flambient/processor.rb:101-106 | One loop step adds the next pixel's channel to the running sum. |
| Averaging.Sum | lib/flambient/processor.rb:101-106 | A channel sum is at most 255 times the number of pixels. |
| Averaging.SumOfCopies | lib/flambient/processor.rb:101-106 | The channel sum of n copies of one pixel is n times its channel. |
| HueMath.Hue | lib/flambient/processor.rb:116-120 | A grey pixel has hue 0. Any other pixel has the chromatic hue. |
| HueMath.Mod360 | lib/flambient/processor.rb:125 | Ruby's floored `% 360` lands in [0, 360) and differs from its argument by a whole multiple of 360. |
| HueMath.Mod360OfDifference | lib/flambient/processor.rb:125 | For a difference of two angles, `% 360` adds 360 to a negative value and leaves a non-negative one unchanged. |
| HueMath.Distance | lib/flambient/processor.rb:123-126 | Definition: `color_distance`, the smaller of the two floored `% 360` differences of the hues. What it promises is stated by the four Distance lemmas. |
| HueMath.DistanceIsShorterArc | lib/flambient/processor.rb:123-126 | The distance is the shorter arc between the two hues on the circle, `min(gap, 360 - gap)`. |
| HueMath.DistanceRange | lib/flambient/processor.rb:123-126 | The distance lies in [0, 180]. |
| HueMath.DistanceSymmetric | lib/flambient/processor.rb:123-126 | The distance does not depend on argument order. |
| HueMath.DistanceZero | lib/flambient/processor.rb:123-126 | The distance is zero exactly when the hues are equal. |
| HueMath.AchromaticDistance | lib/flambient/processor.rb:118 | Two grey pixels are at distance zero. |
| Pixels.Opaque | lib/flambient/processor.rb:112 | `Color.rgb` keeps the three channels and sets full alpha. |
| Bitmap.ReadAppend | lib/flambient/processor.rb:87-93 | Reading two lists of points in turn is reading their concatenation. |
| Bitmap.ReadExtend | lib/flambient/processor.rb:89-90 | Reading one more point appends its pixel. |
| Bitmap.ReadLocal | lib/flambient/processor.rb:90 | What is read depends only on the pixels at the points read. |
| Bitmap.Canvas.constructor | lib/flambient/processor.rb:18 | A new canvas has the given size and background, with nothing drawn. |
| Bitmap.Canvas.DrawPolygon | lib/flambient/processor.rb:45-52 | A `polygon` call appends one command with its path, stroke and fill, and changes nothing else. |
| Geometry.RectCoordsLength | lib/flambient/processor.rb:88-89 | The nested loops over a rectangle visit width times height points. |
| Geometry.RectCoordsMembers | lib/flambient/processor.rb:88-89 | The visited points are exactly the points of the rectangle. |
| Geometry.RectCoordsDistinct | lib/flambient/processor.rb:88-89 | No point is visited twice. |
| Geometry.ScaledAppend | lib/flambient/processor.rb:20-21 | Scaling distributes over concatenation of visit orders. |

## Left out

- The chromatic branch of `color_hue` (lib/flambient/processor.rb:119) is not computed. Its `atan2`/`sqrt` floating-point formula is replaced by the parameter `chroma`, an arbitrary function into [0, 360). Every property above holds for every such function.
- HueMath.Mod360: follows real arithmetic. The rounding of Ruby's `Float#%` is not modelled.
- In Ruby a grey pixel's hue is the Integer 0 rather than a Float. Here it is the real 0.0; the distances compared are the same.
- Bitmap.Canvas.constructor: the transparent fill of `ChunkyPNG::Canvas.new` is recorded as the canvas's background and is not rasterised.
- Bitmap.Canvas.DrawPolygon: records the polygon as a command instead of rasterising it into pixels. Anti-aliasing, and later triangles overwriting shared edges, are therefore not modelled.
- Packed 32-bit ChunkyPNG colours are not modelled: a pixel is four byte channels. The channel split of `to_truecolor_bytes` is the field access.
- Tile sizes of zero or less are left out: `Process` requires `ts >= 1`. In Ruby a tile size of 0 raises `ZeroDivisionError` at `image.width / tile_size` (lib/flambient/processor.rb:16), before any loop runs. A negative tile size makes `Range#step` raise `ArgumentError` ("step can't be negative") in Ruby versions before 3.4.
- `get_pixel` outside the image is ruled out rather than modelled: `Image.GetPixel` has an in-bounds precondition, and the model proves every read meets it.
- Loading and saving PNG files, the command line and the image library's internals are I/O and are outside the model.
- TileGrid.ProcessColumn: the inner `step` loop of `process` is a separate method here (the outer loop calls it once per column), so the two loops are proved apart.
- The `initialize` default tile size of 32 is not modelled: the tile size is always an explicit parameter.
