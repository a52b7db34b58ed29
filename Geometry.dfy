/** Integer points and half-open rectangles, and the order in which a nested
    `(x0...x1).each { |x| (y0...y1).each { |y| ... } }` loop visits the
    points of a rectangle: column by column, top to bottom in each column. */
module Geometry {

  datatype Point = Point(x: int, y: int)

  /** The half-open rectangle [x0, x1) x [y0, y1). */
  datatype Rect = Rect(x0: int, y0: int, x1: int, y1: int)
  {
    predicate Contains(p: Point)
    {
      x0 <= p.x < x1 && y0 <= p.y < y1
    }

    /** Number of values a Ruby range `x0...x1` yields. */
    function Width(): nat
    {
      if x1 <= x0 then 0 else x1 - x0
    }

    function Height(): nat
    {
      if y1 <= y0 then 0 else y1 - y0
    }

    predicate Within(outer: Rect)
    {
      outer.x0 <= x0 && x1 <= outer.x1 && outer.y0 <= y0 && y1 <= outer.y1
    }
  }

  /** The points the inner loop visits in column `x`: y0, y0 + 1, ..., y1 - 1. */
  function ColumnCoords(x: int, y0: int, y1: int): seq<Point>
  {
    seq(if y1 <= y0 then 0 else y1 - y0, k => Point(x, y0 + k))
  }

  /** The points the nested loop visits, in visiting order. */
  function RectCoords(r: Rect): seq<Point>
    decreases r.Width()
  {
    if r.x1 <= r.x0 then []
    else RectCoords(r.(x1 := r.x1 - 1)) + ColumnCoords(r.x1 - 1, r.y0, r.y1)
  }

  predicate Distinct(s: seq<Point>)
  {
    forall i, j :: 0 <= i < j < |s| ==> s[i] != s[j]
  }

  /** The loop visits Width() * Height() points. */
  lemma {:induction false} RectCoordsLength(r: Rect)
    ensures |RectCoords(r)| == r.Width() * r.Height()
    decreases r.Width()
  {
    if r.x0 < r.x1 {
      var r' := r.(x1 := r.x1 - 1);
      RectCoordsLength(r');
      assert r.Width() == r'.Width() + 1;
    }
  }

  /** The loop visits exactly the points of the rectangle. */
  lemma {:induction false} RectCoordsMembers(r: Rect, p: Point)
    ensures p in RectCoords(r) <==> r.Contains(p)
    decreases r.Width()
  {
    if r.x0 < r.x1 {
      var r' := r.(x1 := r.x1 - 1);
      RectCoordsMembers(r', p);
      var col := ColumnCoords(r.x1 - 1, r.y0, r.y1);
      if p.x == r.x1 - 1 && r.y0 <= p.y < r.y1 {
        assert col[p.y - r.y0] == p;
      }
    }
  }

  /** The loop visits no point twice. */
  lemma {:induction false} RectCoordsDistinct(r: Rect)
    ensures Distinct(RectCoords(r))
    decreases r.Width()
  {
    if r.x0 < r.x1 {
      var r' := r.(x1 := r.x1 - 1);
      RectCoordsDistinct(r');
      var pre, col := RectCoords(r'), ColumnCoords(r.x1 - 1, r.y0, r.y1);
      forall i | 0 <= i < |pre| ensures pre[i].x < r.x1 - 1 {
        RectCoordsMembers(r', pre[i]);
      }
      var s := pre + col;
      forall i, j | 0 <= i < j < |s| ensures s[i] != s[j] {
        if j < |pre| {
          assert s[i] == pre[i] && s[j] == pre[j];
        } else if i >= |pre| {
          assert s[i] == col[i - |pre|] && s[j] == col[j - |pre|];
        } else {
          assert s[i] == pre[i] && s[j] == col[j - |pre|];
        }
      }
    }
  }

  /** Every point of a rectangle (a sequence of point coordinates) multiplied by `k`. */
  function Scaled(s: seq<Point>, k: int): (t: seq<Point>)
    ensures |t| == |s|
    ensures forall i :: 0 <= i < |s| ==> t[i] == Point(s[i].x * k, s[i].y * k)
  {
    seq(|s|, i requires 0 <= i < |s| => Point(s[i].x * k, s[i].y * k))
  }

  lemma ScaledAppend(s: seq<Point>, t: seq<Point>, k: int)
    ensures Scaled(s + t, k) == Scaled(s, k) + Scaled(t, k)
  {
    assert forall i :: 0 <= i < |s + t| ==> Scaled(s + t, k)[i] == (Scaled(s, k) + Scaled(t, k))[i];
  }
}
