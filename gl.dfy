/**
 * A WebGL2 context as far as the modelled code uses it: the calls issued
 * on it, in order, and the textures it has created.
 */
module Gl {
  import opened Wrappers

  /** The context constants the modelled code passes. */
  datatype GlEnum =
    | Texture2D | UnpackAlignment | Rgba | UnsignedByte
    | TextureWrapS | TextureWrapT | ClampToEdge
    | TextureMinFilter | TextureMagFilter | Linear | LinearMipmapLinear
    | ColorBufferBit

  /** A texture object returned by `createTexture`, identified by its creation order. */
  type TextureId = nat

  datatype GlCall =
    | CreateTexture
    | BindTexture(target: GlEnum, texture: Option<TextureId>)
    | PixelStorei(pname: GlEnum, value: int)
    | TexImage2D(target: GlEnum, level: int, internalFormat: GlEnum, width: int, height: int,
                 border: int, format: GlEnum, pixelType: GlEnum, pixels: seq<bv8>)
    | TexParameteri(target: GlEnum, pname: GlEnum, param: GlEnum)
    | GenerateMipmap(target: GlEnum)
    | ClearColor(r: real, g: real, b: real, a: real)
    | Clear(mask: GlEnum)
    | Viewport(x: int, y: int, width: int, height: int)

  class GlContext {
    /** Every call issued on the context so far, oldest first. */
    var calls: seq<GlCall>
    /** The number of textures created so far; the next one gets this id. */
    var textures: nat

    constructor ()
      ensures calls == [] && textures == 0
    {
      calls := [];
      textures := 0;
    }
  }
}
