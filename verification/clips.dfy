/**
 What the host hands the effect: the context it was instantiated in, and images
 fetched from clips, each with a pixel format.
 */
module Clips {
  import opened Wrappers
  import opened Geometry

  /** The two contexts the plugin describes itself for. Only the general context has a
      second input clip, the top layer. */
  datatype Context = Filter | General

  /** The clips of the effect. */
  datatype ClipName = Output | Source | TopLayer

  /** Bit depth of an image's channels. Every further member of the host's enumeration
      is `OtherDepth` with its own identifier, so distinct depths stay distinct. */
  datatype BitDepth = UByte | UShort | Half | Float | OtherDepth(depthId: nat)

  /** Channel layout of an image, with further members kept apart the same way. */
  datatype Components = RGBA | RGB | Alpha | OtherComponents(componentsId: nat)

  datatype PixelFormat = PixelFormat(depth: BitDepth, components: Components)

  /** The only output format the effect renders: 32-bit float RGBA. */
  predicate Supported(f: PixelFormat) {
    f.depth == Float && f.components == RGBA
  }

  /** An image fetched from a clip: its format and the pixels it holds. */
  datatype Frame = Frame(format: PixelFormat, pixels: Image)

  /** The pixels of an image pointer that may be null. A null image has no pixel
      anywhere, exactly as a map without keys. */
  function PixelsOf(f: Option<Frame>): (img: Image)
    ensures f.None? ==> img == map[]
    ensures f.Some? ==> img == f.value.pixels
  {
    if f.Some? then f.value.pixels else map[]
  }
}
