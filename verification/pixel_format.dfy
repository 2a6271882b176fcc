/** Choice of a GPU pixel format for an encoded metadata property: the encoded
    type (scalar or vector) and component type (unsigned byte or float) select
    one of four formats; every other combination has no format. */
module PixelFormats {

  /** How a property is laid out in the texture (`None` when unspecified). */
  datatype EncodedType = NoType | Scalar | Vec2 | Vec3 | Vec4

  /** The component of an encoded texel (`None` when unspecified). */
  datatype EncodedComponentType = NoComponent | Uint8 | Float

  /** The engine's pixel formats this encoder can pick. */
  datatype PixelFormat = Unknown | R8Uint | R8G8B8A8Uint | R32Float | A32B32G32R32F

  datatype EncodedPixelFormat = EncodedPixelFormat(format: PixelFormat, pixelSize: nat)

  /** `createTexturePlatformData`: whether a `width` x `height` texture in the
      given format could be allocated. Out of the model's reach, so a parameter. */
  type Allocator = (nat, nat, PixelFormat) -> bool

  /** Number of components an encoded type carries. */
  function ComponentCount(t: EncodedType): nat {
    match t
    case NoType => 0
    case Scalar => 1
    case Vec2 => 2
    case Vec3 => 3
    case Vec4 => 4
  }

  /** Bytes of one encoded component. */
  function ComponentBytes(c: EncodedComponentType): nat {
    match c
    case NoComponent => 0
    case Uint8 => 1
    case Float => 4
  }

  /** Channels of a pixel format. */
  function ChannelCount(f: PixelFormat): nat {
    match f
    case Unknown => 0
    case R8Uint => 1
    case R8G8B8A8Uint => 4
    case R32Float => 1
    case A32B32G32R32F => 4
  }

  /** Bytes of one channel of a pixel format. */
  function ChannelBytes(f: PixelFormat): nat {
    match f
    case Unknown => 0
    case R8Uint => 1
    case R8G8B8A8Uint => 1
    case R32Float => 4
    case A32B32G32R32F => 4
  }

  /** The pixel format and per-pixel byte size for an encoding. A format
      exists exactly for a specified type with an unsigned-byte or float
      component; it has room for every component, each channel is as wide as a
      component, the size is the format's true pixel size, and a size of 0
      marks the missing format. */
  function GetPixelFormat(t: EncodedType, c: EncodedComponentType): (r: EncodedPixelFormat)
    ensures r.format != Unknown <==> t != NoType && c != NoComponent
    ensures r.pixelSize == 0 <==> r.format == Unknown
    ensures r.pixelSize == ChannelCount(r.format) * ChannelBytes(r.format)
    ensures r.format != Unknown ==>
              && ChannelCount(r.format) >= ComponentCount(t)
              && ChannelBytes(r.format) == ComponentBytes(c)
  {
    match c
    case Uint8 =>
      (match t
       case Scalar => EncodedPixelFormat(R8Uint, 1)
       case Vec2 => EncodedPixelFormat(R8G8B8A8Uint, 4)
       case Vec3 => EncodedPixelFormat(R8G8B8A8Uint, 4)
       case Vec4 => EncodedPixelFormat(R8G8B8A8Uint, 4)
       case NoType => EncodedPixelFormat(Unknown, 0))
    case Float =>
      (match t
       case Scalar => EncodedPixelFormat(R32Float, 4)
       case Vec2 => EncodedPixelFormat(A32B32G32R32F, 16)
       case Vec3 => EncodedPixelFormat(A32B32G32R32F, 16)
       case Vec4 => EncodedPixelFormat(A32B32G32R32F, 16)
       // An unmatched inner case falls through to the outer default.
       case NoType => EncodedPixelFormat(Unknown, 0))
    case NoComponent => EncodedPixelFormat(Unknown, 0)
  }

  /** Vectors of every arity share one four-channel format; scalars get a
      one-channel format. */
  lemma VectorsShareFourChannelFormat(t: EncodedType, c: EncodedComponentType)
    requires t in {Vec2, Vec3, Vec4}
    requires c != NoComponent
    ensures GetPixelFormat(t, c) == GetPixelFormat(Vec4, c)
    ensures ChannelCount(GetPixelFormat(t, c).format) == 4
    ensures ChannelCount(GetPixelFormat(Scalar, c).format) == 1
  {
  }
}
