/**
 * The `Pixel` value type of the sprite library: four 8-bit channels,
 * copied by value, with opaque black as the member initialiser.
 */
module Pixels {

  /** An `uint8_t` channel. */
  type Channel = x: int | 0 <= x < 256

  datatype Pixel = Pixel(r: Channel, g: Channel, b: Channel, a: Channel)

  /** The member initialisers of `Pixel`: every colour channel 0, alpha 255. */
  const PixelDefaults: Pixel := Pixel(0, 0, 0, 255)

  /** `Pixel()`: the constructor body is empty, so every initialiser stays. */
  function DefaultPixel(): Pixel
  {
    PixelDefaults
  }

  /** `Pixel(r, g, b)`: sets the colour channels, alpha keeps its initialiser. */
  function Rgb(r: Channel, g: Channel, b: Channel): (p: Pixel)
    ensures p.r == r && p.g == g && p.b == b
    ensures p.a == PixelDefaults.a == 255
  {
    PixelDefaults.(r := r, g := g, b := b)
  }

  /** `Pixel(r, g, b, a)`: sets every channel. */
  function Rgba(r: Channel, g: Channel, b: Channel, a: Channel): Pixel
  {
    Pixel(r, g, b, a)
  }

  // The named colour constants.
  const Red: Pixel := Rgb(255, 0, 0)
  const Green: Pixel := Rgb(0, 255, 0)
  const Blue: Pixel := Rgb(0, 0, 255)
  const Yellow: Pixel := Rgb(255, 255, 0)
  const Purple: Pixel := Rgb(255, 0, 255)
  const Cyan: Pixel := Rgb(0, 255, 255)
  const Black: Pixel := Rgb(0, 0, 0)
  const White: Pixel := Rgb(255, 255, 255)

  /** A default pixel is opaque black. */
  lemma DefaultIsOpaqueBlack()
    ensures DefaultPixel() == Rgba(0, 0, 0, 255) == Black
  {}

  /** The three-channel constructor is the four-channel one with alpha 255,
      and the four-channel one can rebuild any pixel exactly. */
  lemma ConstructorsAgree(r: Channel, g: Channel, b: Channel, p: Pixel)
    ensures Rgb(r, g, b) == Rgba(r, g, b, 255)
    ensures Rgba(p.r, p.g, p.b, p.a) == p
  {}

  /** Every named colour is opaque, with its listed red, green and blue. */
  lemma NamedColours()
    ensures Red == Rgba(255, 0, 0, 255)
    ensures Green == Rgba(0, 255, 0, 255)
    ensures Blue == Rgba(0, 0, 255, 255)
    ensures Yellow == Rgba(255, 255, 0, 255)
    ensures Purple == Rgba(255, 0, 255, 255)
    ensures Cyan == Rgba(0, 255, 255, 255)
    ensures Black == Rgba(0, 0, 0, 255)
    ensures White == Rgba(255, 255, 255, 255)
  {}
}
