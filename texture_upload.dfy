/**
 * Uploading RGBA8 pixel data into a 2D texture, on WebGPU and on WebGL2:
 * the argument guards, the texture descriptor and the calls issued.
 */
module TextureUpload {
  import opened Wrappers
  import opened Js
  import opened Bits
  import opened Seqs
  import Texture
  import Gpu
  import Gl

  // ---------------------------------------------------------------------------
  // Helpers
  // ---------------------------------------------------------------------------

  /** `computeBytesPerRow(width, bpp)` of the upload helpers: both factors are clamped to at least 1. */
  function ComputeBytesPerRow(width: Num, bpp: Num): (r: int)
    ensures r >= Texture.ROW_ALIGN && r % Texture.ROW_ALIGN == 0
    ensures var raw := Max(1, ToInt32(width)) * Max(1, ToInt32(bpp));
      raw <= r < raw + Texture.ROW_ALIGN
  {
    var raw := Max(1, ToInt32(width)) * Max(1, ToInt32(bpp));
    MulAtLeast(Max(1, ToInt32(width)), Max(1, ToInt32(bpp)));
    Texture.AlignUp(raw)
  }

  /** `isFinitePosInt(n)`: a finite number above 0 that `n | 0` leaves unchanged. */
  predicate IsFinitePosInt(v: Value)
  {
    v.Number? && IsFinite(v.n) && v.n.v > 0.0 && ToInt32(v.n) as real == v.n.v
  }

  /** Exactly the integers from 1 up to, but not including, 2^31 pass. */
  lemma IsFinitePosIntIff(v: Value)
    ensures IsFinitePosInt(v) <==>
              v.Number? && IsInteger(v.n) && 1.0 <= v.n.v < TWO31 as real
  {
    if v.Number? && IsInteger(v.n) && 1.0 <= v.n.v < TWO31 as real {
      assert Trunc(v.n.v) as real == v.n.v;
    }
  }

  /** The integer a guarded dimension stands for. */
  function Dim(v: Value): (d: int)
    requires IsFinitePosInt(v)
    ensures 1 <= d < TWO31 && v == Number(Finite(d as real))
  {
    IsFinitePosIntIff(v);
    v.n.v.Floor
  }

  /** `a & b` on non-negative 32-bit integers, bit by bit from the lowest. */
  function BitAnd(a: nat, b: nat): nat
    decreases a
  {
    if a == 0 || b == 0 then 0
    else 2 * BitAnd(a / 2, b / 2) + (if a % 2 == 1 && b % 2 == 1 then 1 else 0)
  }

  lemma {:induction false} BitAndSelf(a: nat)
    ensures BitAnd(a, a) == a
    decreases a
  {
    if a > 0 {
      BitAndSelf(a / 2);
    }
  }

  /** `n` is 1 or twice a power of two. */
  predicate PowerOfTwo(n: nat)
    decreases n
  {
    n == 1 || (n >= 2 && n % 2 == 0 && PowerOfTwo(n / 2))
  }

  lemma {:induction false} PowerOfTwoIsPow2(n: nat)
    requires PowerOfTwo(n)
    ensures exists k: nat :: Pow2(k) == n
    decreases n
  {
    if n == 1 {
      assert Pow2(0) == 1;
    } else {
      PowerOfTwoIsPow2(n / 2);
      var k: nat :| Pow2(k) == n / 2;
      assert Pow2(k + 1) == n;
    }
  }

  lemma {:induction false} Pow2IsPowerOfTwo(k: nat)
    ensures PowerOfTwo(Pow2(k))
    decreases k
  {
    if k > 0 {
      Pow2IsPowerOfTwo(k - 1);
      assert Pow2(k) / 2 == Pow2(k - 1);
    }
  }

  /** `isPOT(n)`: `n & (n - 1)` is 0. For `n = 0` that is `0 & -1`, which is 0 as well. */
  predicate IsPOT(n: int)
    requires 0 <= n < TWO31
  {
    n == 0 || BitAnd(n, n - 1) == 0
  }

  /** The bit test clears the lowest set bit, leaving 0 exactly for a power of two. */
  lemma {:induction false} BitTestIsPowerOfTwo(n: nat)
    requires n >= 1
    ensures BitAnd(n, n - 1) == 0 <==> PowerOfTwo(n)
    decreases n
  {
    if n >= 2 {
      BitTestIsPowerOfTwo(n / 2);
      if n % 2 == 1 {
        assert (n - 1) / 2 == n / 2 && (n - 1) % 2 == 0;
        BitAndSelf(n / 2);
      } else {
        assert (n - 1) / 2 == n / 2 - 1 && n / 2 - 1 >= 0;
        if n / 2 == 1 {
          assert BitAnd(n / 2, n / 2 - 1) == 0;
        }
      }
    }
  }

  /** `isPOT` holds of a positive argument exactly when it is a power of two. */
  lemma IsPOTIff(n: int)
    requires 1 <= n < TWO31
    ensures IsPOT(n) <==> exists k: nat :: Pow2(k) == n
  {
    BitTestIsPowerOfTwo(n);
    if PowerOfTwo(n) {
      PowerOfTwoIsPow2(n);
    }
    if exists k: nat :: Pow2(k) == n {
      var k: nat :| Pow2(k) == n;
      Pow2IsPowerOfTwo(k);
    }
  }

  // ---------------------------------------------------------------------------
  // Arguments
  // ---------------------------------------------------------------------------

  /** The option bag; a missing bag reads as every field undefined. */
  datatype UploadOptions = UploadOptions(
    width: Value, height: Value,
    data: Option<seq<bv8>>,   // None: not a `Uint8Array`
    mips: bool,
    textureLabel: Option<string>)

  datatype UploadError =
    | InvalidContext      // the WebGL2 context is missing or has no `createTexture`
    | InvalidDimension    // "invalid dimension: non-finite or non-positive width/height"
    | SizeMismatch        // "size mismatch: RGBA8 data too small for width*height"
    | NpotMipmaps         // "NPOT textures cannot use mipmaps in WebGL2 (mip restriction)"

  predicate DimsOk(opts: UploadOptions)
  {
    IsFinitePosInt(opts.width) && IsFinitePosInt(opts.height)
  }

  /** The data is a byte array holding at least `w * h * 4` bytes. */
  predicate DataFits(opts: UploadOptions)
    requires DimsOk(opts)
  {
    opts.data.Some? && |opts.data.value| >= Dim(opts.width) * Dim(opts.height) * 4
  }

  /** `1 + floor(log2(max(w, h)))` with mips, else 1. */
  function LevelCount(w: int, h: int, mips: bool): (n: int)
    requires w >= 1 && h >= 1
    ensures n >= 1
    ensures !mips ==> n == 1
    ensures mips ==> Pow2(n - 1) <= Max(w, h) < Pow2(n)
  {
    if mips then Texture.MipLevels(Max(w, h)) else 1
  }

  // ---------------------------------------------------------------------------
  // WebGPU
  // ---------------------------------------------------------------------------

  const WEBGPU_FORMAT := "rgba8unorm"

  /** The descriptor of the texture created by the WebGPU upload. */
  function UploadDescriptor(w: int, h: int, mips: bool, textureLabel: string): (d: Gpu.TextureDescriptor)
    requires w >= 1 && h >= 1
    ensures d.width == w && d.height == h && d.depthOrArrayLayers == 1
    ensures d.format == WEBGPU_FORMAT && d.dimension == "2d" && d.textureLabel == textureLabel
    ensures d.mipLevelCount == LevelCount(w, h, mips)
    ensures |d.usage| >= 2 && d.usage[0] == Gpu.TextureBinding && d.usage[1] == Gpu.CopyDst
    ensures Gpu.RenderAttachment in d.usage <==> mips
    ensures |d.usage| == (if mips then 3 else 2)
  {
    var usage := [Gpu.TextureBinding, Gpu.CopyDst] + (if mips then [Gpu.RenderAttachment] else []);
    Gpu.TextureDescriptor(textureLabel, w, h, 1, WEBGPU_FORMAT, "2d", LevelCount(w, h, mips), usage)
  }

  /** The calls of a WebGPU upload that passed its guards. */
  function GpuUploadCalls(w: int, h: int, data: seq<bv8>, mips: bool, textureLabel: string, hasCreateView: bool): (calls: seq<Gpu.GpuCall>)
    requires w >= 1 && h >= 1
    ensures |calls| == (if hasCreateView then 3 else 2)
    ensures calls[0] == Gpu.CreateTexture(UploadDescriptor(w, h, mips, textureLabel))
    // the base level is written with a 256-aligned row pitch and one image of `h` rows
    ensures calls[|calls| - 1] ==
              Gpu.WriteTexture(0, data, ComputeBytesPerRow(Finite(w as real), Finite(4.0)), h, w, h, 1)
  {
    [Gpu.CreateTexture(UploadDescriptor(w, h, mips, textureLabel))]
    + (if hasCreateView then [Gpu.CreateView(None, None)] else [])
    + [Gpu.WriteTexture(0, data, ComputeBytesPerRow(Finite(w as real), Finite(4.0)), h, w, h, 1)]
  }

  datatype GpuUpload = GpuUpload(width: int, height: int, levelCount: int, format: string)

  /**
   * `uploadTextureRGBA8WebGPU(device, opts)`; `hasCreateView` says whether
   * the created texture offers `createView`.
   */
  method UploadTextureRGBA8WebGPU(device: Gpu.GpuLog, opts: UploadOptions, hasCreateView: bool)
    returns (r: Result<GpuUpload, UploadError>)
    modifies device
    ensures !DimsOk(opts) ==> r == Err(InvalidDimension) && device.calls == old(device.calls)
    ensures DimsOk(opts) && !DataFits(opts) ==> r == Err(SizeMismatch) && device.calls == old(device.calls)
    ensures DimsOk(opts) && DataFits(opts) ==>
              var w, h := Dim(opts.width), Dim(opts.height);
              var textureLabel := if opts.textureLabel.Some? then opts.textureLabel.value else "tex2d_rgba8";
              && r == Ok(GpuUpload(w, h, LevelCount(w, h, opts.mips), WEBGPU_FORMAT))
              && device.calls == old(device.calls) + GpuUploadCalls(w, h, opts.data.value, opts.mips, textureLabel, hasCreateView)
  {
    if !IsFinitePosInt(opts.width) || !IsFinitePosInt(opts.height) {
      return Err(InvalidDimension);
    }
    var width, height := Dim(opts.width), Dim(opts.height);
    var needed := width * height * 4;
    if opts.data.None? || |opts.data.value| < needed {
      return Err(SizeMismatch);
    }
    var textureLabel := if opts.textureLabel.Some? then opts.textureLabel.value else "tex2d_rgba8";
    var usage := [Gpu.TextureBinding, Gpu.CopyDst];
    if opts.mips {
      usage := usage + [Gpu.RenderAttachment];
    }
    var levels := if opts.mips then 1 + FloorLog2(Max(width, height)) else 1;
    var desc := Gpu.TextureDescriptor(textureLabel, width, height, 1, WEBGPU_FORMAT, "2d", levels, usage);
    assert desc == UploadDescriptor(width, height, opts.mips, textureLabel);
    ghost var c0 := device.calls;
    device.calls := device.calls + [Gpu.CreateTexture(desc)];
    ghost var issued := [Gpu.CreateTexture(desc)];
    if hasCreateView {
      device.calls := device.calls + [Gpu.CreateView(None, None)];
      issued := issued + [Gpu.CreateView(None, None)];
    }
    assert device.calls == c0 + issued;
    var bytesPerRow := ComputeBytesPerRow(Finite(width as real), Finite(4.0));
    device.calls := device.calls + [Gpu.WriteTexture(0, opts.data.value, bytesPerRow, height, width, height, 1)];
    issued := issued + [Gpu.WriteTexture(0, opts.data.value, bytesPerRow, height, width, height, 1)];
    assert device.calls == c0 + issued;
    assert issued == GpuUploadCalls(width, height, opts.data.value, opts.mips, textureLabel, hasCreateView);
    return Ok(GpuUpload(width, height, desc.mipLevelCount, WEBGPU_FORMAT));
  }

  /** The base-level row pitch of an upload is the 256-aligned size of a row of RGBA8 pixels. */
  lemma UploadRowPitch(w: int)
    requires 1 <= w < TWO31
    ensures var p := ComputeBytesPerRow(Finite(w as real), Finite(4.0));
      p % Texture.ROW_ALIGN == 0 && 4 * w <= p < 4 * w + Texture.ROW_ALIGN
  {
    assert Trunc(w as real) == w;
    assert ToInt32(Finite(4.0)) == 4;
  }

  // ---------------------------------------------------------------------------
  // WebGL2
  // ---------------------------------------------------------------------------

  /** The calls of a WebGL2 upload that passed its guards, creating texture `tex`. */
  function GlUploadCalls(tex: Gl.TextureId, w: int, h: int, data: seq<bv8>, mips: bool): (calls: seq<Gl.GlCall>)
    ensures |calls| == (if mips then 10 else 9)
    // the texture is bound for the upload and unbound at the end
    ensures calls[0] == Gl.CreateTexture && calls[1] == Gl.BindTexture(Gl.Texture2D, Some(tex))
    ensures calls[|calls| - 1] == Gl.BindTexture(Gl.Texture2D, None)
  {
    GlSetupCalls(tex, w, h, data) + GlFilterCalls(mips) + [Gl.BindTexture(Gl.Texture2D, None)]
  }

  /** What a WebGL2 upload sets up: the pixels, the wrap modes, and mipmaps exactly when asked for. */
  lemma GlUploadCallsContents(tex: Gl.TextureId, w: int, h: int, data: seq<bv8>, mips: bool)
    ensures var calls := GlUploadCalls(tex, w, h, data, mips);
      && Gl.TexImage2D(Gl.Texture2D, 0, Gl.Rgba, w, h, 0, Gl.Rgba, Gl.UnsignedByte, data) in calls
      // both wrap modes always clamp to the edge
      && Gl.TexParameteri(Gl.Texture2D, Gl.TextureWrapS, Gl.ClampToEdge) in calls
      && Gl.TexParameteri(Gl.Texture2D, Gl.TextureWrapT, Gl.ClampToEdge) in calls
      // mipmaps are generated, and sampled with trilinear filtering, exactly with mips
      && (Gl.GenerateMipmap(Gl.Texture2D) in calls <==> mips)
      && (Gl.TexParameteri(Gl.Texture2D, Gl.TextureMinFilter, Gl.LinearMipmapLinear) in calls <==> mips)
      && (Gl.TexParameteri(Gl.Texture2D, Gl.TextureMinFilter, Gl.Linear) in calls <==> !mips)
      && Gl.TexParameteri(Gl.Texture2D, Gl.TextureMagFilter, Gl.Linear) in calls
  {
    var setup, filters := GlSetupCalls(tex, w, h, data), GlFilterCalls(mips);
    assert GlUploadCalls(tex, w, h, data, mips) == setup + filters + [Gl.BindTexture(Gl.Texture2D, None)];
    assert setup[3] == Gl.TexImage2D(Gl.Texture2D, 0, Gl.Rgba, w, h, 0, Gl.Rgba, Gl.UnsignedByte, data);
    assert setup[4] == Gl.TexParameteri(Gl.Texture2D, Gl.TextureWrapS, Gl.ClampToEdge);
    assert setup[5] == Gl.TexParameteri(Gl.Texture2D, Gl.TextureWrapT, Gl.ClampToEdge);
    assert filters[|filters| - 1] == Gl.TexParameteri(Gl.Texture2D, Gl.TextureMagFilter, Gl.Linear);
    assert filters[0] == if mips then Gl.GenerateMipmap(Gl.Texture2D)
                         else Gl.TexParameteri(Gl.Texture2D, Gl.TextureMinFilter, Gl.Linear);
    if mips {
      assert filters[1] == Gl.TexParameteri(Gl.Texture2D, Gl.TextureMinFilter, Gl.LinearMipmapLinear);
    }
  }

  /** Create and bind the texture, upload level 0 with byte alignment, clamp both wrap modes. */
  function GlSetupCalls(tex: Gl.TextureId, w: int, h: int, data: seq<bv8>): seq<Gl.GlCall>
  {
    [ Gl.CreateTexture,
      Gl.BindTexture(Gl.Texture2D, Some(tex)),
      Gl.PixelStorei(Gl.UnpackAlignment, 1),
      Gl.TexImage2D(Gl.Texture2D, 0, Gl.Rgba, w, h, 0, Gl.Rgba, Gl.UnsignedByte, data),
      Gl.TexParameteri(Gl.Texture2D, Gl.TextureWrapS, Gl.ClampToEdge),
      Gl.TexParameteri(Gl.Texture2D, Gl.TextureWrapT, Gl.ClampToEdge) ]
  }

  /** Generate the mip chain and filter trilinearly, or filter linearly without mips. */
  function GlFilterCalls(mips: bool): seq<Gl.GlCall>
  {
    if mips then
      [ Gl.GenerateMipmap(Gl.Texture2D),
        Gl.TexParameteri(Gl.Texture2D, Gl.TextureMinFilter, Gl.LinearMipmapLinear),
        Gl.TexParameteri(Gl.Texture2D, Gl.TextureMagFilter, Gl.Linear) ]
    else
      [ Gl.TexParameteri(Gl.Texture2D, Gl.TextureMinFilter, Gl.Linear),
        Gl.TexParameteri(Gl.Texture2D, Gl.TextureMagFilter, Gl.Linear) ]
  }

  datatype GlUpload = GlUpload(
    texture: Gl.TextureId, target: Gl.GlEnum, width: int, height: int,
    levelCount: int, format: Gl.GlEnum, pixelType: Gl.GlEnum)

  /** Mipmaps on WebGL2 need both sides to be powers of two. */
  predicate MipsAllowed(opts: UploadOptions)
    requires DimsOk(opts)
  {
    !opts.mips || (IsPOT(Dim(opts.width)) && IsPOT(Dim(opts.height)))
  }

  /** Issues `call` on `gl`, whose log so far is `c0` followed by `issued`. */
  method Issue(gl: Gl.GlContext, call: Gl.GlCall, ghost c0: seq<Gl.GlCall>, ghost issued: seq<Gl.GlCall>)
    requires gl.calls == c0 + issued
    modifies gl
    ensures gl.calls == c0 + (issued + [call]) && gl.textures == old(gl.textures)
  {
    gl.calls := gl.calls + [call];
  }

  /** The first six calls of a WebGL2 upload, `GlSetupCalls`, in order. */
  method IssueSetup(gl: Gl.GlContext, texture: Gl.TextureId, width: int, height: int, data: seq<bv8>)
    modifies gl
    ensures gl.calls == old(gl.calls) + GlSetupCalls(texture, width, height, data) && gl.textures == old(gl.textures)
  {
    ghost var c0 := gl.calls;
    ghost var issued: seq<Gl.GlCall> := [];
    Issue(gl, Gl.CreateTexture, c0, issued);
    issued := issued + [Gl.CreateTexture];
    Issue(gl, Gl.BindTexture(Gl.Texture2D, Some(texture)), c0, issued);
    issued := issued + [Gl.BindTexture(Gl.Texture2D, Some(texture))];
    Issue(gl, Gl.PixelStorei(Gl.UnpackAlignment, 1), c0, issued);
    issued := issued + [Gl.PixelStorei(Gl.UnpackAlignment, 1)];
    Issue(gl, Gl.TexImage2D(Gl.Texture2D, 0, Gl.Rgba, width, height, 0, Gl.Rgba, Gl.UnsignedByte, data), c0, issued);
    issued := issued + [Gl.TexImage2D(Gl.Texture2D, 0, Gl.Rgba, width, height, 0, Gl.Rgba, Gl.UnsignedByte, data)];
    Issue(gl, Gl.TexParameteri(Gl.Texture2D, Gl.TextureWrapS, Gl.ClampToEdge), c0, issued);
    issued := issued + [Gl.TexParameteri(Gl.Texture2D, Gl.TextureWrapS, Gl.ClampToEdge)];
    Issue(gl, Gl.TexParameteri(Gl.Texture2D, Gl.TextureWrapT, Gl.ClampToEdge), c0, issued);
    issued := issued + [Gl.TexParameteri(Gl.Texture2D, Gl.TextureWrapT, Gl.ClampToEdge)];
    assert issued == GlSetupCalls(texture, width, height, data);
  }

  /** The mipmap and filter calls of a WebGL2 upload, `GlFilterCalls(mips)`, in order. */
  method IssueFilters(gl: Gl.GlContext, mips: bool)
    modifies gl
    ensures gl.calls == old(gl.calls) + GlFilterCalls(mips) && gl.textures == old(gl.textures)
  {
    ghost var c0 := gl.calls;
    ghost var issued: seq<Gl.GlCall> := [];
    if mips {
      Issue(gl, Gl.GenerateMipmap(Gl.Texture2D), c0, issued);
      issued := issued + [Gl.GenerateMipmap(Gl.Texture2D)];
      Issue(gl, Gl.TexParameteri(Gl.Texture2D, Gl.TextureMinFilter, Gl.LinearMipmapLinear), c0, issued);
      issued := issued + [Gl.TexParameteri(Gl.Texture2D, Gl.TextureMinFilter, Gl.LinearMipmapLinear)];
    } else {
      Issue(gl, Gl.TexParameteri(Gl.Texture2D, Gl.TextureMinFilter, Gl.Linear), c0, issued);
      issued := issued + [Gl.TexParameteri(Gl.Texture2D, Gl.TextureMinFilter, Gl.Linear)];
    }
    Issue(gl, Gl.TexParameteri(Gl.Texture2D, Gl.TextureMagFilter, Gl.Linear), c0, issued);
    issued := issued + [Gl.TexParameteri(Gl.Texture2D, Gl.TextureMagFilter, Gl.Linear)];
    assert issued == GlFilterCalls(mips);
  }

  /** `uploadTextureRGBA8WebGL2(gl, opts)`; `null` stands for a missing or unusable context. */
  method UploadTextureRGBA8WebGL2(gl: Gl.GlContext?, opts: UploadOptions) returns (r: Result<GlUpload, UploadError>)
    modifies gl
    ensures gl == null ==> r == Err(InvalidContext)
    ensures gl != null && !DimsOk(opts) ==> r == Err(InvalidDimension) && gl.calls == old(gl.calls)
    ensures gl != null && DimsOk(opts) && !DataFits(opts) ==> r == Err(SizeMismatch) && gl.calls == old(gl.calls)
    ensures gl != null && DimsOk(opts) && DataFits(opts) && !MipsAllowed(opts) ==>
              r == Err(NpotMipmaps) && gl.calls == old(gl.calls)
    ensures gl != null && DimsOk(opts) && DataFits(opts) && MipsAllowed(opts) ==>
              var w, h := Dim(opts.width), Dim(opts.height);
              && r == Ok(GlUpload(old(gl.textures), Gl.Texture2D, w, h, LevelCount(w, h, opts.mips), Gl.Rgba, Gl.UnsignedByte))
              && gl.calls == old(gl.calls) + GlUploadCalls(old(gl.textures), w, h, opts.data.value, opts.mips)
              && gl.textures == old(gl.textures) + 1
    ensures gl != null && r.Err? ==> gl.textures == old(gl.textures)
  {
    if gl == null {
      return Err(InvalidContext);
    }
    if !IsFinitePosInt(opts.width) || !IsFinitePosInt(opts.height) {
      return Err(InvalidDimension);
    }
    var width, height := Dim(opts.width), Dim(opts.height);
    var needed := width * height * 4;
    if opts.data.None? || |opts.data.value| < needed {
      return Err(SizeMismatch);
    }
    if opts.mips && !(IsPOT(width) && IsPOT(height)) {
      return Err(NpotMipmaps);
    }
    var data := opts.data.value;
    var texture := gl.textures;
    gl.textures := gl.textures + 1;
    ghost var c0 := gl.calls;
    var levelCount := 1;
    IssueSetup(gl, texture, width, height, data);
    if opts.mips {
      levelCount := 1 + FloorLog2(Max(width, height));
    }
    IssueFilters(gl, opts.mips);
    gl.calls := gl.calls + [Gl.BindTexture(Gl.Texture2D, None)];
    AppendAssoc(c0, GlSetupCalls(texture, width, height, data), GlFilterCalls(opts.mips));
    AppendAssoc(c0, GlSetupCalls(texture, width, height, data) + GlFilterCalls(opts.mips), [Gl.BindTexture(Gl.Texture2D, None)]);
    return Ok(GlUpload(texture, Gl.Texture2D, width, height, levelCount, Gl.Rgba, Gl.UnsignedByte));
  }
}
