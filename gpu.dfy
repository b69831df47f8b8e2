/**
 * A WebGPU device, queue, command encoder and canvas context as far as the
 * modelled code uses them: one log of the calls issued on them, in order.
 */
module Gpu {
  import opened Wrappers
  import opened Js

  datatype TextureUsage = TextureBinding | CopyDst | RenderAttachment

  /** The descriptor passed to `createTexture` (a 2D texture of one layer). */
  datatype TextureDescriptor = TextureDescriptor(
    textureLabel: string, width: int, height: int, depthOrArrayLayers: int,
    format: string, dimension: string, mipLevelCount: int, usage: seq<TextureUsage>)

  /** A colour with components in the order red, green, blue, alpha. */
  datatype Rgba = Rgba(r: real, g: real, b: real, a: real)

  datatype GpuCall =
    /** `device.createTexture(desc)`. */
    | CreateTexture(desc: TextureDescriptor)
    /** `texture.createView(desc)`; a missing field is `None`. */
    | CreateView(baseMipLevel: Option<int>, mipLevelCount: Option<int>)
    /** `device.queue.writeTexture` at origin (0, 0, 0) from data offset 0. */
    | WriteTexture(mipLevel: int, data: seq<bv8>, bytesPerRow: int, rowsPerImage: int,
                   width: int, height: int, depthOrArrayLayers: int)
    /** `device.createShaderModule` of the vertex or the fragment stage. */
    | CreateShaderModule(stage: string)
    /** `device.createRenderPipeline` with an automatic layout, entry points `main`, a triangle list and one colour target. */
    | CreateRenderPipeline(targetFormat: string)
    | CreateSampler(magFilter: string, minFilter: string, mipmapFilter: string)
    /** `device.createBindGroup`: binding 0 the sampler, binding 1 the view of mip level `sourceLevel`. */
    | CreateBindGroup(sourceLevel: int)
    /** `encoder.beginRenderPass` with one colour attachment, the view of mip level `targetLevel`. */
    | BeginRenderPass(targetLevel: int, loadOp: string, storeOp: string, clearValue: Rgba)
    | SetPipeline
    | SetBindGroup(index: int)
    | Draw(vertexCount: int)
    | End
    /** `context.configure(config)`. */
    | Configure(config: map<string, Value>)

  class GpuLog {
    /** Every call issued so far, oldest first. */
    var calls: seq<GpuCall>

    constructor ()
      ensures calls == []
    {
      calls := [];
    }
  }
}
