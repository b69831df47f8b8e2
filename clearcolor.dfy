/**
 * Clear colours: validating an `[r, g, b]` or `[r, g, b, a]` array, the
 * WebGPU render pass that clears to it, and the WebGL2 clear.
 */
module ClearColor {
  import opened Wrappers
  import opened Js
  import opened Gpu
  import Gl

  /** The argument: an array of values, or anything else. */
  datatype ColorArg = NotArray | Array(items: seq<Value>)

  datatype ColorError =
    | BadShape     // TypeError "Clear color must be an array of length 3 or 4"
    | NotFinite    // TypeError "Clear color components must be finite numbers"
    | OutOfRange   // RangeError "Clear color components must be in the range 0..1"

  /** `Number.isFinite(v)` and `0 <= v <= 1`. */
  predicate InRange(v: Value)
  {
    v.Number? && v.n.Finite? && 0.0 <= v.n.v <= 1.0
  }

  /** The error a single component gives, checked in the source's order. */
  function ComponentError(v: Value): ColorError
  {
    if !(v.Number? && v.n.Finite?) then NotFinite else OutOfRange
  }

  /** The first component, in order, that is not a finite number in `[0, 1]` decides the error. */
  function CheckComponents(vs: seq<Value>): (r: Outcome<ColorError>)
    ensures r.Pass? <==> forall k | 0 <= k < |vs| :: InRange(vs[k])
    ensures r.Fail? ==> exists i | 0 <= i < |vs| ::
              && !InRange(vs[i]) && r.error == ComponentError(vs[i])
              && forall k | 0 <= k < i :: InRange(vs[k])
    decreases |vs|
  {
    if vs == [] then Pass
    else if !InRange(vs[0]) then Fail(ComponentError(vs[0]))
    else
      var rest := CheckComponents(vs[1..]);
      if rest.Fail? then
        ghost var i :| 0 <= i < |vs[1..]| && !InRange(vs[1..][i]) && rest.error == ComponentError(vs[1..][i])
                      && forall k | 0 <= k < i :: InRange(vs[1..][k]);
        assert !InRange(vs[i + 1]) && forall k | 0 <= k < i + 1 :: InRange(vs[k]);
        rest
      else
        assert forall k | 1 <= k < |vs| :: InRange(vs[k]) by {
          forall k | 1 <= k < |vs| ensures InRange(vs[k]) {
            assert vs[k] == vs[1..][k - 1];
          }
        }
        rest
  }

  /** `[r, g, b, a = 1]`: the alpha is 1 when it is missing or `undefined`. */
  function Components(items: seq<Value>): (c: seq<Value>)
    requires |items| == 3 || |items| == 4
    ensures |c| == 4 && c[..3] == items[..3]
    ensures c[3] == (if |items| == 4 && !items[3].Undefined? then items[3] else Number(Finite(1.0)))
  {
    items[..3] + [if |items| == 4 && !items[3].Undefined? then items[3] else Number(Finite(1.0))]
  }

  /** `normalizeClearColor(rgba3or4)`. */
  function NormalizeClearColor(color: ColorArg): (r: Result<Rgba, ColorError>)
    ensures r == Err(BadShape) <==> color.NotArray? || (|color.items| != 3 && |color.items| != 4)
    ensures r.Ok? <==> color.Array? && (|color.items| == 3 || |color.items| == 4)
                       && forall k | 0 <= k < 4 :: InRange(Components(color.items)[k])
    ensures r.Ok? ==> var c := Components(color.items);
              r.value == Rgba(c[0].n.v, c[1].n.v, c[2].n.v, c[3].n.v)
    ensures r.Err? && r.error != BadShape ==> var c := Components(color.items);
              exists i | 0 <= i < 4 :: !InRange(c[i]) && r.error == ComponentError(c[i])
                                       && forall k | 0 <= k < i :: InRange(c[k])
  {
    if color.NotArray? || (|color.items| != 3 && |color.items| != 4) then Err(BadShape)
    else
      var c := Components(color.items);
      var check := CheckComponents(c);
      if check.Fail? then Err(check.error)
      else Ok(Rgba(c[0].n.v, c[1].n.v, c[2].n.v, c[3].n.v))
  }

  function N(x: real): Value { Number(Finite(x)) }

  /** The alpha defaults to 1 when it is missing or `undefined`, and the components are kept as given. */
  lemma NormalizeDefaultsAlpha(r: real, g: real, b: real)
    requires 0.0 <= r <= 1.0 && 0.0 <= g <= 1.0 && 0.0 <= b <= 1.0
    ensures NormalizeClearColor(Array([N(r), N(g), N(b)])) == Ok(Rgba(r, g, b, 1.0))
    ensures NormalizeClearColor(Array([N(r), N(g), N(b), Undefined])) == Ok(Rgba(r, g, b, 1.0))
  {
    assert Components([N(r), N(g), N(b)]) == [N(r), N(g), N(b), N(1.0)];
    assert Components([N(r), N(g), N(b), Undefined]) == [N(r), N(g), N(b), N(1.0)];
  }

  /** Components are checked in order: the first bad one decides between the two errors. */
  lemma NormalizeErrorOrder()
    ensures NormalizeClearColor(Array([N(2.0), Number(NaN), N(0.0)])) == Err(OutOfRange)
    ensures NormalizeClearColor(Array([N(0.0), Number(NaN), N(2.0)])) == Err(NotFinite)
  {
    assert !InRange(Components([N(2.0), Number(NaN), N(0.0)])[0]);
    assert !InRange(Components([N(0.0), Number(NaN), N(2.0)])[1]);
  }

  /** Anything but an array of three or four items is refused before its items are looked at. */
  lemma NormalizeBadShape()
    ensures NormalizeClearColor(Array([N(0.0), N(0.0)])) == Err(BadShape)
    ensures NormalizeClearColor(Array([N(0.0), N(0.0), N(0.0), N(0.0), N(0.0)])) == Err(BadShape)
    ensures NormalizeClearColor(NotArray) == Err(BadShape)
  {
  }

  /** A valid colour's components survive normalisation: it is the identity on valid colours. */
  lemma NormalizeKeepsValid(c: Rgba)
    requires 0.0 <= c.r <= 1.0 && 0.0 <= c.g <= 1.0 && 0.0 <= c.b <= 1.0 && 0.0 <= c.a <= 1.0
    ensures NormalizeClearColor(Array([N(c.r), N(c.g), N(c.b), N(c.a)])) == Ok(c)
  {
    var c4 := Components([N(c.r), N(c.g), N(c.b), N(c.a)]);
    assert c4 == [N(c.r), N(c.g), N(c.b), N(c.a)];
  }

  datatype ColorAttachment<V> = ColorAttachment(view: V, clearValue: Rgba, loadOp: string, storeOp: string)

  datatype RenderPassDescriptor<V> = RenderPassDescriptor(colorAttachments: seq<ColorAttachment<V>>)

  /** `beginRenderPassDescriptor(view, color)`. */
  function BeginRenderPassDescriptor<V>(view: V, color: ColorArg): (r: Result<RenderPassDescriptor<V>, ColorError>)
    ensures r.Err? <==> NormalizeClearColor(color).Err?
    ensures r.Err? ==> r.error == NormalizeClearColor(color).error
    ensures r.Ok? ==> |r.value.colorAttachments| == 1
                      && r.value.colorAttachments[0] == ColorAttachment(view, NormalizeClearColor(color).value, "clear", "store")
  {
    var clearValue := NormalizeClearColor(color);
    if clearValue.Err? then Err(clearValue.error)
    else Ok(RenderPassDescriptor([ColorAttachment(view, clearValue.value, "clear", "store")]))
  }

  /** `applyGLClear(gl, color)`: `clearColor(r, g, b, a)` then `clear(COLOR_BUFFER_BIT)`, nothing on error. */
  method ApplyGLClear(gl: Gl.GlContext, color: ColorArg) returns (r: Outcome<ColorError>)
    modifies gl
    ensures var n := NormalizeClearColor(color);
      && (n.Err? ==> r == Fail(n.error) && gl.calls == old(gl.calls))
      && (n.Ok? ==> r == Pass && gl.calls == old(gl.calls) + [Gl.ClearColor(n.value.r, n.value.g, n.value.b, n.value.a),
                                                               Gl.Clear(Gl.ColorBufferBit)])
    ensures gl.textures == old(gl.textures)
  {
    var n := NormalizeClearColor(color);
    if n.Err? {
      return Fail(n.error);
    }
    var c := n.value;
    gl.calls := gl.calls + [Gl.ClearColor(c.r, c.g, c.b, c.a)];
    gl.calls := gl.calls + [Gl.Clear(Gl.ColorBufferBit)];
    return Pass;
  }
}
