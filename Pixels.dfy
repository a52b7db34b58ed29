/** Colours as the processor sees them once a packed ChunkyPNG colour has been
    split into its bytes, and the error the pipeline can raise. */
module Pixels {

  /** One 8-bit colour channel. */
  type Byte = x: int | 0 <= x < 256

  /** A pixel: red, green, blue and alpha channels. */
  datatype Pixel = Pixel(r: Byte, g: Byte, b: Byte, a: Byte)

  /** The three channels that take part in averaging and hue. */
  datatype Channel = Red | Green | Blue

  function Chan(p: Pixel, c: Channel): Byte
  {
    match c
    case Red => p.r
    case Green => p.g
    case Blue => p.b
  }

  /** The colour `ChunkyPNG::Color.rgb` builds from the channels of `p`: same
      red, green and blue, fully opaque. */
  function Opaque(p: Pixel): (q: Pixel)
    ensures q.a == 255
    ensures forall c :: Chan(q, c) == Chan(p, c)
  {
    p.(a := 255)
  }

  /** `ChunkyPNG::Color::TRANSPARENT`, the canvas background. */
  const Transparent := Pixel(0, 0, 0, 0)

  /** The only failure of the pipeline: integer division by a zero pixel count. */
  datatype Error = DivideByZero

  datatype Result<T> = Ok(value: T) | Err(error: Error)
}
