/** The two bitmaps the processor touches: the read-only source image and the
    output canvas, which records the polygons drawn onto it. */
module Bitmap {
  import opened Pixels
  import opened Geometry

  /** A decoded source image: its size and its pixel accessor. */
  datatype Image = Image(width: nat, height: nat, pixel: (int, int) -> Pixel)
  {
    predicate InBounds(p: Point)
    {
      0 <= p.x < width && 0 <= p.y < height
    }

    /** `image.get_pixel(x, y)`, defined only inside the image. */
    function GetPixel(x: int, y: int): Pixel
      requires InBounds(Point(x, y))
    {
      pixel(x, y)
    }

    function Bounds(): Rect
    {
      Rect(0, 0, width, height)
    }
  }

  /** The pixels at the given points, in that order. (The methods that read
      the image do so through `GetPixel`, so their reads are in bounds.) */
  function Read(img: Image, ps: seq<Point>): (s: seq<Pixel>)
    ensures |s| == |ps|
    ensures forall i :: 0 <= i < |ps| ==> s[i] == img.pixel(ps[i].x, ps[i].y)
  {
    seq(|ps|, i requires 0 <= i < |ps| => img.pixel(ps[i].x, ps[i].y))
  }

  lemma ReadAppend(img: Image, ps: seq<Point>, qs: seq<Point>)
    ensures Read(img, ps + qs) == Read(img, ps) + Read(img, qs)
  {
    assert forall i :: 0 <= i < |ps + qs| ==>
      Read(img, ps + qs)[i] == (Read(img, ps) + Read(img, qs))[i];
  }

  /** Visiting one more point of the current column reads one more pixel. */
  lemma ReadExtend(img: Image, visited: seq<Point>, column: seq<Point>, p: Point)
    ensures Read(img, visited + (column + [p])) == Read(img, visited + column) + [img.pixel(p.x, p.y)]
  {
    assert visited + (column + [p]) == visited + column + [p];
    ReadAppend(img, visited + column, [p]);
  }

  /** What is read at a list of points depends only on the pixels at those points. */
  lemma ReadLocal(img: Image, img': Image, ps: seq<Point>)
    requires forall i :: 0 <= i < |ps| ==> img.pixel(ps[i].x, ps[i].y) == img'.pixel(ps[i].x, ps[i].y)
    ensures Read(img, ps) == Read(img', ps)
  {
  }

  /** One `canvas.polygon(path, stroke_color, fill_color)` call. */
  datatype DrawCommand = Polygon(path: seq<Point>, stroke: Pixel, fill: Pixel)

  /** The output canvas. Its size and background are fixed when it is
      allocated; drawing appends to the list of draw commands. */
  class Canvas {
    const width: nat
    const height: nat
    const background: Pixel
    var commands: seq<DrawCommand>

    /** `ChunkyPNG::Canvas.new(width, height, background)`. */
    constructor (width: nat, height: nat, background: Pixel)
      ensures this.width == width && this.height == height
      ensures this.background == background
      ensures commands == []
    {
      this.width := width;
      this.height := height;
      this.background := background;
      commands := [];
    }

    method DrawPolygon(path: seq<Point>, stroke: Pixel, fill: Pixel)
      modifies this
      ensures commands == old(commands) + [Polygon(path, stroke, fill)]
    {
      commands := commands + [Polygon(path, stroke, fill)];
    }
  }
}
