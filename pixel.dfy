/** The pixel value type: three 8-bit channels, red, green and blue. */
module Pixels {

  /** An 8-bit channel value (`png_byte`). */
  newtype byte = x: int | 0 <= x < 256

  /** A pixel: the channels r, g and b, in that order. */
  datatype Pixel = Pixel(r: byte, g: byte, b: byte)

  /** The three-argument constructor: stores r, g and b in that order. */
  function MakePixel(r: byte, g: byte, b: byte): (p: Pixel)
    ensures p.r == r && p.g == g && p.b == b
    ensures forall q: Pixel :: q.r == r && q.g == g && q.b == b ==> q == p
  {
    Pixel(r, g, b)
  }

  /** `operator==`: channel-wise comparison. */
  function Equal(a: Pixel, b: Pixel): (eq: bool)
    ensures eq <==> a == b
  {
    a.r == b.r && a.g == b.g && a.b == b.b
  }

  /** `operator!=`: the negation of `==`. */
  function NotEqual(a: Pixel, b: Pixel): (ne: bool)
    ensures ne <==> !Equal(a, b)
    ensures ne <==> a != b
  {
    !Equal(a, b)
  }

  /** `==` is an equivalence relation on pixels. */
  lemma EqualIsEquivalence(a: Pixel, b: Pixel, c: Pixel)
    ensures Equal(a, a)
    ensures Equal(a, b) ==> Equal(b, a)
    ensures Equal(a, b) && Equal(b, c) ==> Equal(a, c)
  {
  }
}
