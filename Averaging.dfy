/** `average_color`: the channel-wise integer mean of a list of pixels. */
module Averaging {
  import opened Pixels
  import opened Arith

  /** The sum of channel `c` over `ps`, accumulated front to back. */
  function Sum(ps: seq<Pixel>, c: Channel): (s: nat)
    ensures s <= 255 * |ps|
  {
    if ps == [] then 0 else Sum(ps[..|ps| - 1], c) + Chan(ps[|ps| - 1], c)
  }

  /** Adding the next pixel to the prefix adds its channel to the sum. */
  lemma SumStep(ps: seq<Pixel>, i: nat, c: Channel)
    requires i < |ps|
    ensures Sum(ps[..i + 1], c) == Sum(ps[..i], c) + Chan(ps[i], c)
  {
    assert ps[..i + 1][..i] == ps[..i];
  }

  lemma QuotientBound(s: nat, n: nat)
    requires 0 < n && s <= 255 * n
    ensures 0 <= s / n <= 255
  {
    FloorDiv(s, n);
    if s / n >= 256 {
      MulMono(256, s / n, n);
    }
  }

  /** The floor mean of channel `c` over a non-empty list, always a byte. */
  function ChannelMean(ps: seq<Pixel>, c: Channel): Byte
    requires ps != []
  {
    QuotientBound(Sum(ps, c), |ps|);
    Sum(ps, c) / |ps|
  }

  /** The mean colour: each channel is its sum floor-divided by the pixel
      count; an empty list divides by zero. The result is opaque, as
      `ChunkyPNG::Color.rgb` builds it. */
  function Average(ps: seq<Pixel>): (r: Result<Pixel>)
    ensures r.Err? <==> ps == []
    ensures r.Err? ==> r.error == DivideByZero
    ensures r.Ok? ==> r.value.a == 255
  {
    if ps == [] then Err(DivideByZero)
    else Ok(Pixel(ChannelMean(ps, Red), ChannelMean(ps, Green), ChannelMean(ps, Blue), 255))
  }

  /** `average_color(pixels)`: one pass accumulating the three channel sums,
      then the divisions. */
  method AverageColor(pixels: seq<Pixel>) returns (r: Result<Pixel>)
    ensures r == Average(pixels)
  {
    var rSum, gSum, bSum := 0, 0, 0;
    var count := |pixels|;
    for i := 0 to |pixels|
      invariant rSum == Sum(pixels[..i], Red)
      invariant gSum == Sum(pixels[..i], Green)
      invariant bSum == Sum(pixels[..i], Blue)
    {
      SumStep(pixels, i, Red);
      SumStep(pixels, i, Green);
      SumStep(pixels, i, Blue);
      rSum := rSum + pixels[i].r;
      gSum := gSum + pixels[i].g;
      bSum := bSum + pixels[i].b;
    }
    assert pixels[..|pixels|] == pixels;
    if count == 0 {
      return Err(DivideByZero);
    }
    var rAvg, gAvg, bAvg := rSum / count, gSum / count, bSum / count;
    assert rAvg == ChannelMean(pixels, Red) && gAvg == ChannelMean(pixels, Green) && bAvg == ChannelMean(pixels, Blue);
    r := Ok(Pixel(rAvg, gAvg, bAvg, 255));
  }

  /** Each channel of a non-empty average is the floor of that channel's mean:
      it times the count is at most the sum, and one more times the count
      exceeds it. */
  lemma AverageIsFloorMean(ps: seq<Pixel>, c: Channel)
    requires ps != []
    ensures Average(ps).Ok?
    ensures Chan(Average(ps).value, c) * |ps| <= Sum(ps, c) < (Chan(Average(ps).value, c) + 1) * |ps|
  {
    FloorDiv(Sum(ps, c), |ps|);
  }

  lemma {:induction false} SumOfCopies(ps: seq<Pixel>, p: Pixel, c: Channel)
    requires forall i :: 0 <= i < |ps| ==> ps[i] == p
    ensures Sum(ps, c) == Chan(p, c) * |ps|
  {
    if ps != [] {
      SumOfCopies(ps[..|ps| - 1], p, c);
    }
  }

  /** Averaging n >= 1 copies of a colour gives that colour back (made opaque). */
  lemma AverageOfCopies(ps: seq<Pixel>, p: Pixel)
    requires ps != []
    requires forall i :: 0 <= i < |ps| ==> ps[i] == p
    ensures Average(ps) == Ok(Opaque(p))
  {
    SumOfCopies(ps, p, Red);
    SumOfCopies(ps, p, Green);
    SumOfCopies(ps, p, Blue);
    ExactQuotient(p.r, |ps|);
    ExactQuotient(p.g, |ps|);
    ExactQuotient(p.b, |ps|);
  }

  /** The average of a single colour is that colour (made opaque). */
  lemma AverageOfOne(p: Pixel)
    ensures Average([p]) == Ok(Opaque(p))
  {
    AverageOfCopies([p], p);
  }

  /** The blend of two colours: each channel is the floor of the channel mean. */
  lemma AverageOfPair(p: Pixel, q: Pixel)
    ensures Average([p, q]) == Ok(Pixel((p.r + q.r) / 2, (p.g + q.g) / 2, (p.b + q.b) / 2, 255))
    ensures Average([p, q]) == Average([q, p])
  {
    assert [p, q][..1] == [p] && [q, p][..1] == [q];
    assert [p][..0] == [] && [q][..0] == [];
    forall c ensures Sum([p, q], c) == Chan(p, c) + Chan(q, c) == Sum([q, p], c) {
      assert Sum([p], c) == Chan(p, c);
      assert Sum([q], c) == Chan(q, c);
    }
  }
}
