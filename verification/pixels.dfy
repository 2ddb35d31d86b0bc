/**
 The pixel arithmetic of the blend processor: RGBA pixels over reals, the
 BT.709 luminance and the [0,1] clamp applied to output channels.
 */
module Pixels {

  /** One pixel of a 4-component float image, channels in memory order R, G, B, A. */
  datatype Pixel = Pixel(r: real, g: real, b: real, a: real) {

    /** The colour channel `c` (index 0, 1 or 2 of the pixel). */
    function Get(c: Channel): real {
      Rgb().Get(c)
    }

    /** The three colour channels, without alpha. */
    function Rgb(): Color3 {
      Color3(r, g, b)
    }
  }

  /** The three colour channels the blend loop iterates over; alpha is handled apart. */
  datatype Channel = Red | Green | Blue

  /** A three-component colour, the type of the average colour of the top layer. */
  datatype Color3 = Color3(r: real, g: real, b: real) {

    /** The channel `c`. */
    function Get(c: Channel): real {
      match c
      case Red => r
      case Green => g
      case Blue => b
    }
  }

  /** Fully transparent black, written where a source or top-layer pixel is missing. */
  const Transparent: Pixel := Pixel(0.0, 0.0, 0.0, 0.0)

  /** The zero colour, the initial value of the processor's average-colour vector. */
  const Zero3: Color3 := Color3(0.0, 0.0, 0.0)

  /** Luma weights of item 3.2 of ITU-R BT.709. */
  const LumaR: real := 0.2126
  const LumaG: real := 0.7152
  const LumaB: real := 0.0722

  /** `calcLuminance`: the BT.709 weighted sum of the colour channels. The weights add
      up to one, so a grey pixel's luminance is its own level, and the luminance of
      channels in [0,1] stays in [0,1]. */
  function Luminance(p: Pixel): (lum: real)
    ensures p.r == p.g == p.b ==> lum == p.r
    ensures InUnit(p.r) && InUnit(p.g) && InUnit(p.b) ==> InUnit(lum)
  {
    LumaR * p.r + LumaG * p.g + LumaB * p.b
  }

  predicate InUnit(v: real) {
    0.0 <= v <= 1.0
  }

  function Dist(u: real, v: real): real {
    if u <= v then v - u else u - v
  }

  /** The clamp to [0,1] applied to each colour channel when `clamp` is set. */
  function Clamp01(v: real): (r: real)
    ensures InUnit(r)
    ensures InUnit(v) ==> r == v
    ensures forall u :: InUnit(u) ==> Dist(r, v) <= Dist(u, v)
  {
    if v < 0.0 then 0.0 else if 1.0 < v then 1.0 else v
  }
}
