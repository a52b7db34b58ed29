/** `color_hue` and `color_distance`. The hue of a chromatic pixel comes from
    a floating-point `atan2` formula; here it is a parameter `chroma`, any
    function into [0, 360). Only the achromatic case is computed. */
module HueMath {
  import opened Pixels

  /** An angle in degrees, as Ruby's `% 360` leaves it. */
  type Degrees = h: real | 0.0 <= h < 360.0

  /** The case `color_hue` tests first: all three channels equal. */
  predicate Achromatic(p: Pixel)
  {
    p.r == p.b && p.b == p.g
  }

  /** `color_hue(pixel)`: 0 for a grey pixel, otherwise the chromatic hue. */
  function Hue(p: Pixel, chroma: Pixel -> Degrees): (h: Degrees)
    ensures p.r == p.g == p.b ==> h == 0.0
    ensures !Achromatic(p) ==> h == chroma(p)
  {
    if Achromatic(p) then 0.0 else chroma(p)
  }

  /** Ruby's floored `Float#% 360`: the representative of `d` in [0, 360). */
  function Mod360(d: real): (m: real)
    ensures 0.0 <= m < 360.0
    ensures ((d - m) / 360.0).Floor as real == (d - m) / 360.0
  {
    d - 360.0 * ((d / 360.0).Floor as real)
  }

  /** On the two windows a difference of two angles can fall in, `Mod360`
      adds 0 or 360. */
  lemma Mod360OfDifference(d: real)
    requires -360.0 < d < 360.0
    ensures Mod360(d) == if d < 0.0 then d + 360.0 else d
  {
    var f := (d / 360.0).Floor;
    assert f as real <= d / 360.0 < f as real + 1.0;
    if d < 0.0 {
      assert f == -1;
    } else {
      assert f == 0;
    }
  }

  /** `color_distance(pixel, poxel)`: the smaller of the two modular
      differences of the hues. */
  function Distance(p: Pixel, q: Pixel, chroma: Pixel -> Degrees): (d: real)
  {
    var hp: real, hq: real := Hue(p, chroma), Hue(q, chroma);
    Min(Mod360(hp - hq), Mod360(hq - hp))
  }

  function Min(a: real, b: real): real
  {
    if a <= b then a else b
  }

  function Abs(a: real): real
  {
    if a < 0.0 then -a else a
  }

  /** The distance is the length of the shorter arc between the two hues on
      the 360-degree circle. */
  lemma DistanceIsShorterArc(p: Pixel, q: Pixel, chroma: Pixel -> Degrees)
    ensures var gap := Abs(Hue(p, chroma) - Hue(q, chroma));
      Distance(p, q, chroma) == Min(gap, 360.0 - gap)
  {
    var hp: real, hq: real := Hue(p, chroma), Hue(q, chroma);
    Mod360OfDifference(hp - hq);
    Mod360OfDifference(hq - hp);
  }

  /** The distance lies in [0, 180]. */
  lemma DistanceRange(p: Pixel, q: Pixel, chroma: Pixel -> Degrees)
    ensures 0.0 <= Distance(p, q, chroma) <= 180.0
  {
    DistanceIsShorterArc(p, q, chroma);
  }

  lemma DistanceSymmetric(p: Pixel, q: Pixel, chroma: Pixel -> Degrees)
    ensures Distance(p, q, chroma) == Distance(q, p, chroma)
  {
    DistanceIsShorterArc(p, q, chroma);
    DistanceIsShorterArc(q, p, chroma);
  }

  /** The distance is zero exactly when the two hues are equal. */
  lemma DistanceZero(p: Pixel, q: Pixel, chroma: Pixel -> Degrees)
    ensures Distance(p, q, chroma) == 0.0 <==> Hue(p, chroma) == Hue(q, chroma)
  {
    DistanceIsShorterArc(p, q, chroma);
  }

  /** Two grey pixels are at distance zero. */
  lemma AchromaticDistance(p: Pixel, q: Pixel, chroma: Pixel -> Degrees)
    requires Achromatic(p) && Achromatic(q)
    ensures Distance(p, q, chroma) == 0.0
  {
    DistanceZero(p, q, chroma);
  }
}
