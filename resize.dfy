/**
 * Canvas resizing: the target size is normalised to integers of at least 1,
 * the canvas is updated in place when the size changed, and the WebGPU
 * context is reconfigured (WebGPU) or the viewport set (WebGL2).
 */
module Resize {
  import opened Wrappers
  import opened Js
  import Gpu
  import Gl

  datatype ResizeError = NotFiniteDim   // TypeError "resize: dimensions must be finite numbers"

  /** `normDim(v)`: `Math.max(1, Math.floor(v))` of a finite number. */
  function NormDim(v: Num): (r: Result<int, ResizeError>)
    ensures r.Err? <==> !IsFinite(v)
    ensures r.Err? ==> r.error == NotFiniteDim
    ensures r.Ok? ==> r.value >= 1 && (v.v >= 1.0 ==> r.value == v.v.Floor) && (v.v < 1.0 ==> r.value == 1)
  {
    if !IsFinite(v) then Err(NotFiniteDim) else Ok(Max(1, v.v.Floor))
  }

  /** A normalised size normalises to itself, and positive integers are kept. */
  lemma NormDimIdempotent(v: Num)
    requires NormDim(v).Ok?
    ensures NormDim(Finite(NormDim(v).value as real)) == NormDim(v)
  {
  }

  lemma NormDimExamples()
    ensures NormDim(Finite(640.7)) == Ok(640)
    ensures NormDim(Finite(0.0)) == Ok(1) && NormDim(Finite(-5.0)) == Ok(1)
    ensures NormDim(NaN).Err? && NormDim(PosInf).Err?
  {
  }

  /** The canvas element's drawing-buffer size. */
  class Canvas {
    var width: int
    var height: int

    constructor (width: int, height: int)
      ensures this.width == width && this.height == height
    {
      this.width := width;
      this.height := height;
    }
  }

  datatype WebGpuResize = WebGpuResize(width: int, height: int, reconfigured: bool)

  /** `{device, format, ...options}`: the options override the first two keys. */
  function ConfigureArgs(device: Value, format: string, options: map<string, Value>): (m: map<string, Value>)
    ensures "device" in m && "format" in m && m.Keys == options.Keys + {"device", "format"}
    ensures forall k | k in options :: m[k] == options[k]
    ensures "device" !in options ==> m["device"] == device
    ensures "format" !in options ==> m["format"] == Str(format)
  {
    map["device" := device, "format" := Str(format)] + options
  }

  /** `resizeWebGPU(canvas, context, device, format, options, targetWidth, targetHeight)`; `context` records into `log`. */
  method ResizeWebGPU(canvas: Canvas, log: Gpu.GpuLog, device: Value, format: string, options: map<string, Value>,
                      targetWidth: Num, targetHeight: Num)
    returns (r: Result<WebGpuResize, ResizeError>)
    modifies canvas, log
    ensures NormDim(targetWidth).Err? || NormDim(targetHeight).Err? ==>
              && r == Err(NotFiniteDim)
              && canvas.width == old(canvas.width) && canvas.height == old(canvas.height)
              && log.calls == old(log.calls)
    ensures NormDim(targetWidth).Ok? && NormDim(targetHeight).Ok? ==>
              var w, h := NormDim(targetWidth).value, NormDim(targetHeight).value;
              var changed := old(canvas.width) != w || old(canvas.height) != h;
              && r == Ok(WebGpuResize(w, h, changed))
              && canvas.width == w && canvas.height == h
              && log.calls == old(log.calls) + (if changed then [Gpu.Configure(ConfigureArgs(device, format, options))] else [])
  {
    var w0 := NormDim(targetWidth);
    if w0.Err? {
      return Err(w0.error);
    }
    var h0 := NormDim(targetHeight);
    if h0.Err? {
      return Err(h0.error);
    }
    var w, h := w0.value, h0.value;
    var changed := canvas.width != w || canvas.height != h;
    if changed {
      canvas.width := w;
      canvas.height := h;
      log.calls := log.calls + [Gpu.Configure(ConfigureArgs(device, format, options))];
    }
    return Ok(WebGpuResize(canvas.width, canvas.height, changed));
  }

  /** The same resize twice: the second one reports no change and configures nothing. */
  method ResizeWebGPUTwice(canvas: Canvas, log: Gpu.GpuLog, device: Value, format: string, options: map<string, Value>,
                           targetWidth: Num, targetHeight: Num)
    returns (first: Result<WebGpuResize, ResizeError>, second: Result<WebGpuResize, ResizeError>)
    modifies canvas, log
    ensures first.Ok? ==> second == Ok(first.value.(reconfigured := false))
    ensures first.Ok? ==> |log.calls| == |old(log.calls)| + (if first.value.reconfigured then 1 else 0)
  {
    first := ResizeWebGPU(canvas, log, device, format, options, targetWidth, targetHeight);
    second := ResizeWebGPU(canvas, log, device, format, options, targetWidth, targetHeight);
  }

  datatype WebGl2Resize = WebGl2Resize(width: int, height: int)

  /** `resizeWebGL2(canvas, gl, targetWidth, targetHeight)`. */
  method ResizeWebGL2(canvas: Canvas, gl: Gl.GlContext, targetWidth: Num, targetHeight: Num)
    returns (r: Result<WebGl2Resize, ResizeError>)
    modifies canvas, gl
    ensures NormDim(targetWidth).Err? || NormDim(targetHeight).Err? ==>
              && r == Err(NotFiniteDim)
              && canvas.width == old(canvas.width) && canvas.height == old(canvas.height)
              && gl.calls == old(gl.calls)
    ensures NormDim(targetWidth).Ok? && NormDim(targetHeight).Ok? ==>
              var w, h := NormDim(targetWidth).value, NormDim(targetHeight).value;
              && r == Ok(WebGl2Resize(w, h))
              && canvas.width == w && canvas.height == h
              && gl.calls == old(gl.calls) + [Gl.Viewport(0, 0, w, h)]
    ensures gl.textures == old(gl.textures)
  {
    var w0 := NormDim(targetWidth);
    if w0.Err? {
      return Err(w0.error);
    }
    var h0 := NormDim(targetHeight);
    if h0.Err? {
      return Err(h0.error);
    }
    var w, h := w0.value, h0.value;
    if canvas.width != w || canvas.height != h {
      canvas.width := w;
      canvas.height := h;
    }
    gl.calls := gl.calls + [Gl.Viewport(0, 0, canvas.width, canvas.height)];
    return Ok(WebGl2Resize(canvas.width, canvas.height));
  }
}
