/**
 * Depth attachments: choosing a supported depth format from a priority list,
 * and the render pass descriptor with a colour and a depth attachment.
 */
module Depth {
  import opened Wrappers
  import opened Js
  import Gpu

  const DEFAULT_FALLBACKS: seq<string> := ["depth24plus", "depth32float"]

  datatype DepthError = NoDepthFormat   // "No supported depth format available"

  /**
   * `chooseDepthFormat(supported, fallbacks)`; an omitted argument is `None`
   * and takes its default (the empty set, the default priority list).
   */
  method ChooseDepthFormat(supported: Option<set<string>>, fallbacks: Option<seq<string>>)
    returns (r: Result<string, DepthError>)
    ensures var sup := if supported.Some? then supported.value else {};
      var fb := if fallbacks.Some? then fallbacks.value else DEFAULT_FALLBACKS;
      && (r.Err? <==> forall k | 0 <= k < |fb| :: fb[k] !in sup)
      && (r.Err? ==> r.error == NoDepthFormat)
      && (r.Ok? ==> exists i | 0 <= i < |fb| :: fb[i] == r.value && fb[i] in sup
                      && forall k | 0 <= k < i :: fb[k] !in sup)
  {
    var sup := if supported.Some? then supported.value else {};
    var fb := if fallbacks.Some? then fallbacks.value else DEFAULT_FALLBACKS;
    for i := 0 to |fb|
      invariant forall k | 0 <= k < i :: fb[k] !in sup
    {
      if fb[i] in sup {
        return Ok(fb[i]);
      }
    }
    return Err(NoDepthFormat);
  }

  /** The colour attachment of a depth pass. */
  datatype ColorAttachment<V> = ColorAttachment(view: V, loadOp: string, storeOp: string, clearValue: Gpu.Rgba)

  /** The depth-stencil attachment of a depth pass. */
  datatype DepthAttachment<V> =
    DepthAttachment(view: V, depthLoadOp: string, depthStoreOp: string, depthClearValue: Num)

  datatype DepthPassDescriptor<V> =
    DepthPassDescriptor(colorAttachments: seq<ColorAttachment<V>>, depthStencilAttachment: DepthAttachment<V>)

  const DEFAULT_CLEAR_COLOR := Gpu.Rgba(0.0, 0.0, 0.0, 1.0)

  /**
   * `beginDepthRenderPassDescriptor(colorView, depthView, clearColor, clearDepth)`;
   * an omitted colour or depth is `None` and takes its default.
   */
  function BeginDepthRenderPassDescriptor<V>(colorView: V, depthView: V, clearColor: Option<Gpu.Rgba>, clearDepth: Option<Num>)
    : (d: DepthPassDescriptor<V>)
    ensures |d.colorAttachments| == 1
    ensures d.colorAttachments[0].view == colorView && d.depthStencilAttachment.view == depthView
    ensures d.colorAttachments[0].loadOp == "clear" && d.colorAttachments[0].storeOp == "store"
    ensures d.depthStencilAttachment.depthLoadOp == "clear" && d.depthStencilAttachment.depthStoreOp == "store"
    ensures d.colorAttachments[0].clearValue == (if clearColor.Some? then clearColor.value else DEFAULT_CLEAR_COLOR)
    ensures d.depthStencilAttachment.depthClearValue == (if clearDepth.Some? then clearDepth.value else Finite(1.0))
  {
    var color := if clearColor.Some? then clearColor.value else DEFAULT_CLEAR_COLOR;
    var depth := if clearDepth.Some? then clearDepth.value else Finite(1.0);
    DepthPassDescriptor(
      [ColorAttachment(colorView, "clear", "store", color)],
      DepthAttachment(depthView, "clear", "store", depth))
  }

  /** The defaults are opaque black and depth 1.0, and explicit values pass through. */
  lemma DepthDescriptorDefaults<V>(colorView: V, depthView: V, c: Gpu.Rgba, z: Num)
    ensures BeginDepthRenderPassDescriptor(colorView, depthView, None, None).colorAttachments[0].clearValue
              == Gpu.Rgba(0.0, 0.0, 0.0, 1.0)
    ensures BeginDepthRenderPassDescriptor(colorView, depthView, None, None).depthStencilAttachment.depthClearValue
              == Finite(1.0)
    ensures BeginDepthRenderPassDescriptor(colorView, depthView, Some(c), Some(z))
              == DepthPassDescriptor([ColorAttachment(colorView, "clear", "store", c)],
                                     DepthAttachment(depthView, "clear", "store", z))
  {
  }
}
